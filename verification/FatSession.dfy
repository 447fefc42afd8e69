/**
 A file's whole life through the driver's calls: created, looked up, written,
 looked up again through its directory entry, read back, and removed.
*/
module FatSession {
  import opened Bytes
  import opened FatTable
  import opened FatChains
  import opened FatDriver
  import opened FatContents
  import opened FatDirent
  import opened FatFile
  import opened FatWrite
  import opened FatNames
  import opened FatOwnership
  import opened FatDirectory
  import opened FatDirOps

  /** Byte `i` of a file after a write: from the buffer where it was written, else what was there, else zero. */
  lemma WrittenByte(g: Geometry, v: Volume, cs: seq<nat>, dir: nat, pos: nat, buffer: seq<byte>, v': Volume,
                    cs': seq<nat>, n: nat, i: nat)
    requires Writing(g, v, cs, dir, pos, buffer, v', cs', n) && i < |Contents(v', cs')|
    ensures Contents(v', cs')[i] ==
            if pos <= i < pos + n then buffer[i - pos] else if i < |Contents(v, cs)| then Contents(v, cs)[i] else 0
  {
    hide Contents, Extended, IsChain;
  }

  /** A chain's bytes are those of a file and zeros behind them. */
  ghost predicate Holds(contents: seq<byte>, data: seq<byte>) {
    data <= contents && forall i :: |data| <= i < |contents| ==> contents[i] == 0
  }

  /** A file after writing `x` at byte `pos`: longer if `x` ends behind it, and a gap before `x` holds zeros. */
  function Overwritten(data: seq<byte>, pos: nat, x: seq<byte>): (r: seq<byte>)
    ensures |r| == Max(|data|, pos + |x|)
    ensures forall i :: 0 <= i < |r| ==> r[i] == if pos <= i < pos + |x| then x[i - pos]
            else if i < |data| then data[i] else 0
  {
    Splice(if pos + |x| <= |data| then data else data + Zeros(pos + |x| - |data|), pos, x)
  }

  /** The bytes behind a file's size are zero after a write if they were before it. */
  lemma WriteFills(g: Geometry, v: Volume, cs: seq<nat>, dir: nat, pos: nat, buffer: seq<byte>, v': Volume,
                   cs': seq<nat>, n: nat, data: seq<byte>)
    requires Writing(g, v, cs, dir, pos, buffer, v', cs', n) && Holds(Contents(v, cs), data)
    ensures Holds(Contents(v', cs'), Overwritten(data, pos, buffer[..n]))
  {
    hide Contents, Extended, IsChain, Overwritten, ZeroClusters, Splice, WroteSoFar;
    WritingReaches(g, v, cs, dir, pos, buffer, v', cs', n);
    var now, r := Contents(v', cs'), Overwritten(data, pos, buffer[..n]);
    forall i | 0 <= i < |now|
      ensures now[i] == if i < |r| then r[i] else 0
    {
      WrittenByte(g, v, cs, dir, pos, buffer, v', cs', n, i);
    }
  }

  lemma WritingReaches(g: Geometry, v: Volume, cs: seq<nat>, dir: nat, pos: nat, buffer: seq<byte>, v': Volume,
                       cs': seq<nat>, n: nat)
    requires Writing(g, v, cs, dir, pos, buffer, v', cs', n)
    ensures n <= |buffer| && pos + n <= |Contents(v', cs')| && |Contents(v, cs)| <= |Contents(v', cs')|
  {
    hide Contents, Extended, IsChain;
  }

  /** Reading where a write went gives what was written, for any length up to what was written. */
  lemma WrittenReadsBack(g: Geometry, v: Volume, cs: seq<nat>, dir: nat, pos: nat, buffer: seq<byte>, v': Volume,
                         cs': seq<nat>, n: nat, size: nat)
    requires Writing(g, v, cs, dir, pos, buffer, v', cs', n) && pos + n <= size
    ensures Clip(Contents(v', cs'), pos, Wanted(false, size, pos, n)) == buffer[..n]
  {
    hide Contents, Extended, IsChain, Splice, ZeroClusters;
    SplicedSlice(Contents(v, cs) + ZeroClusters(g, |cs'| - |cs|), pos, buffer[..n]);
  }

  lemma SplicedSlice<T>(s: seq<T>, o: nat, x: seq<T>)
    requires o + |x| <= |s|
    ensures Clip(Splice(s, o, x), o, |x|) == x
  {
  }

  /** A used cluster stays used while another file's chain grows. */
  lemma UsedStays(g: Geometry, v: Volume, v': Volume, cs: seq<nat>, cs': seq<nat>, dir: nat, c: nat)
    requires Extended(g, v, v', cs, cs', dir) && c < |v.table| && v.table[c] != FREE
    ensures v'.table[c] != FREE
  {
    if c in cs' {
      InChainUsed(g, v'.table, cs', c);
    }
  }

  /** Writing a file leaves another node's chain in place. */
  lemma OtherOwner(g: Geometry, v: Volume, v': Volume, cs: seq<nat>, cs': seq<nat>, dir: nat, first: nat,
                   other: seq<nat>, entryDir: nat, o: nat)
    requires Extended(g, v, v', cs, cs', dir) && forall c :: c in cs ==> c !in other
    requires Owns(g, v.table, first, other) && EntryPlaced(g, v.table, entryDir, o, other)
    ensures Owns(g, v'.table, first, other) && EntryPlaced(g, v'.table, entryDir, o, other)
    ensures forall c :: c in cs' ==> c !in other
  {
    forall c | c in other
      ensures c !in cs' && 2 <= c < |v.table| && v'.table[c] == v.table[c]
    {
      InChainUsed(g, v.table, other, c);
      UsedStaysOutside(g, v, v', cs, cs', dir, c);
    }
    forall i | 0 <= i < |other|
      ensures v'.table[other[i]] == v.table[other[i]]
    {
      assert other[i] in other;
    }
    if entryDir != 0 {
      UsedStays(g, v, v', cs, cs', dir, entryDir);
    }
  }

  // ---- the directory entry of a written file ----

  /** The entry a scan finds at byte `o` of directory cluster `c`. */
  lemma EntryPlace(g: Geometry, v: Volume, cs: seq<nat>, c: nat, o: nat) returns (at: nat)
    requires Shaped(g, v) && IsChain(g, v.table, cs) && c in cs && InData(v, cs)
    requires o % ENTRY_SIZE == 0 && o + ENTRY_SIZE <= g.Bpc()
    ensures 2 <= c < |v.data| + 2 && |v.data[c - 2]| == g.Bpc()
    ensures at < |DirEntries(v, cs)| && DirEntries(v, cs)[at] == EntryIn(v.data[c - 2], o)
    ensures forall e: Entry, v': Volume :: v' == WithEntry(v, c, o, e) ==> EntrySet(v, v', cs, at, e)
  {
    hide DirEntries, IsChain, EntrySet, Splice;
    var k: nat :| k < |cs| && cs[k] == c;
    var i := o / ENTRY_SIZE;
    EntryAt(g, v, cs, k, i);
    at := EntryPosition(g, k, i);
    forall e: Entry, v': Volume | v' == WithEntry(v, c, o, e)
      ensures EntrySet(v, v', cs, at, e)
    {
      EntryWritten(g, v, v', cs, k, i, e);
    }
  }

  lemma {:induction false} ListingReplaced(es: seq<Entry>, at: nat, e: Entry)
    requires TailEnded(es) && KeyOnce(es, Key(e)) && at < |es| && IsVisible(es[at]) && IsVisible(e)
             && Key(e) == Key(es[at])
    ensures Key(e) in Listing(es) && Listing(es)[Key(e)] == es[at]
    ensures Listing(es[at := e]) == Listing(es)[Key(e) := e]
  {
    hide Key, IsLive;
    if at == 0 {
      assert es[at := e][1..] == es[1..];
    } else {
      assert es[at := e][1..] == es[1..][at - 1 := e] && es[at := e][0] == es[0];
      TailOfTail(es);
      assert !IsEnd(es[0]);
      forall i, j | 0 <= i < j < |es[1..]| && IsVisible(es[1..][i]) && IsVisible(es[1..][j])
        ensures !(Key(es[1..][i]) == Key(e) && Key(es[1..][j]) == Key(e))
      {
        assert es[1..][i] == es[i + 1] && es[1..][j] == es[j + 1];
      }
      ListingReplaced(es[1..], at - 1, e);
    }
  }

  lemma ReplacedOk(g: Geometry, es: seq<Entry>, at: nat, e: Entry)
    requires DirectoryOk(g, es) && at < |es| && IsVisible(es[at]) && IsVisible(e) && Key(e) == Key(es[at])
    requires LinkInRange(g, StartCluster(e)) && Attributes(e) != ATTR_LFN
    ensures DirectoryOk(g, es[at := e]) && StayOnce(es, es[at := e])
  {
    hide Key, IsLive, LinkInRange, StartCluster;
    var es' := es[at := e];
    forall key | KeyOnce(es, key)
      ensures KeyOnce(es', key)
    {
      forall i, j | 0 <= i < j < |es'| && IsVisible(es'[i]) && IsVisible(es'[j])
        ensures !(Key(es'[i]) == key && Key(es'[j]) == key)
      {
        assert IsVisible(es[i]) && IsVisible(es[j]) && Key(es'[i]) == Key(es[i]) && Key(es'[j]) == Key(es[j]);
      }
    }
  }

  /** A new start cluster and size in an entry do not change what it is called or whether it shows. */
  lemma EntryAfterKeeps(e: Entry, gotFirst: bool, first: nat, grew: bool, size: nat)
    requires IsVisible(e) && Attributes(e) != ATTR_LFN && first < U32
    ensures var e' := EntryAfter(e, gotFirst, first, grew, size);
            && IsVisible(e') && Key(e') == Key(e) && Attributes(e') == Attributes(e)
            && StartCluster(e') == (if gotFirst then first else StartCluster(e))
            && FileSize(e') == if grew then size % U32 else FileSize(e)
  {
    hide WithSize, WithCluster, StartCluster, FileSize, LongName;
    var e' := EntryAfter(e, gotFirst, first, grew, size);
    assert Name(e') == Name(e) && Name(e')[0] == e'[0] && Name(e)[0] == e[0];
  }

  /** What a write left in the directory: the listing has the same keys, and the file's entry is the new one. */
  lemma DirectoryAfterWrite(g: Geometry, v: Volume, v': Volume, dirCs: seq<nat>, cs: seq<nat>, cs': seq<nat>, dir: nat,
                            o: nat, e: Entry, key: seq<byte>, e': Entry)
    requires Shaped(g, v) && IsChain(g, v.table, dirCs) && InData(v, dirCs) && dir in dirCs && 2 <= dir < |v.data| + 2
    requires Extended(g, v, v', cs, cs', dir) && forall c :: c in cs' ==> c !in dirCs
    requires o % ENTRY_SIZE == 0 && o + ENTRY_SIZE <= g.Bpc() && o + ENTRY_SIZE <= |v.data[dir - 2]|
             && EntryIn(v.data[dir - 2], o) == e
    requires EntryReplaced(v, v', dir, o, e')
    requires DirectoryOk(g, DirEntries(v, dirCs)) && KeyOnce(DirEntries(v, dirCs), key) && IsVisible(e) && Key(e) == key
    requires IsVisible(e') && Key(e') == key && Attributes(e') != ATTR_LFN && LinkInRange(g, StartCluster(e'))
    ensures InData(v', dirCs) && DirectoryOk(g, DirEntries(v', dirCs))
            && StayOnce(DirEntries(v, dirCs), DirEntries(v', dirCs))
    ensures Listing(DirEntries(v', dirCs)) == Listing(DirEntries(v, dirCs))[key := e']
  {
    hide DirEntries, Listing, Key, IsLive, Contents, IsChain, LinkInRange, StartCluster, Splice, DirectoryOk, KeyOnce;
    var at := EntryPlace(g, v, dirCs, dir, o);
    var w := WithEntry(v, dir, o, e');
    assert EntrySet(v, w, dirCs, at, e');
    SameInside(g, w, v', dirCs);
    DirectoryParts(g, DirEntries(v, dirCs));
    ListingReplaced(DirEntries(v, dirCs), at, e');
    ReplacedOk(g, DirEntries(v, dirCs), at, e');
  }

  lemma DirectoryParts(g: Geometry, es: seq<Entry>)
    requires DirectoryOk(g, es)
    ensures TailEnded(es) && NoLongNames(es) && StartsInRange(g, es)
  {
  }

  lemma SameInside(g: Geometry, v: Volume, v': Volume, cs: seq<nat>)
    requires InData(v, cs) && |v'.data| == |v.data|
    requires forall c :: c in cs && 2 <= c < |v.data| + 2 ==> v'.data[c - 2] == v.data[c - 2]
    ensures InData(v', cs) && DirEntries(v', cs) == DirEntries(v, cs)
  {
    forall i | 0 <= i < |cs|
      ensures v'.data[cs[i] - 2] == v.data[cs[i] - 2]
    {
      assert cs[i] in cs;
    }
    ContentsSame(v, v', cs);
  }

  /** `node` is an open file of the well-formed directory `dir`: one entry answers to `name`, the node was opened from
      it, and the file's chain is disjoint from the directory's. */
  ghost predicate OpenIn(fs: Fat32, dir: FatNode, node: FatNode, name: seq<byte>)
    reads fs, dir, node
  {
    && NodeOk(fs, dir) && NodeOk(fs, node) && InData(fs.vol, dir.chain)
    && DirectoryOk(fs.g, DirEntries(fs.vol, dir.chain)) && KeyOnce(DirEntries(fs.vol, dir.chain), LowerAll(name))
    && (forall c :: c in node.chain ==> c !in dir.chain)
    && LowerAll(name) in Listing(DirEntries(fs.vol, dir.chain))
    && Opens(fs.vol, dir.chain, Listing(DirEntries(fs.vol, dir.chain))[LowerAll(name)], node)
  }

  ghost function Elems(cs: seq<nat>): set<nat> { set c | c in cs }

  ghost predicate NoOtherName(es: seq<Entry>, es': seq<Entry>, key: seq<byte>) {
    Listing(es') - {key} == Listing(es) - {key}
  }

  /** The links of entries past the data area are what they were. */
  ghost predicate OutsideKept(g: Geometry, t: seq<nat>, t': seq<nat>) {
    |t'| == |t| && forall c :: g.End() <= c < |t| ==> t'[c] == t[c]
  }

  /** Opens a listed file by name; `e` is its entry and `cs` its chain. */
  method Reopen(fs: Fat32, dir: FatNode, name: seq<byte>, ghost e: Entry, ghost cs: seq<nat>) returns (node: FatNode?)
    requires NodeOk(fs, dir) && InData(fs.vol, dir.chain) && DirectoryOk(fs.g, DirEntries(fs.vol, dir.chain))
    requires LowerAll(name) in Listing(DirEntries(fs.vol, dir.chain))
             && Listing(DirEntries(fs.vol, dir.chain))[LowerAll(name)] == e
    requires KeyOnce(DirEntries(fs.vol, dir.chain), LowerAll(name))
    requires if StartCluster(e) == 0 then cs == [] else IsChain(fs.g, fs.vol.table, cs) && cs[0] == StartCluster(e)
    requires forall c :: c in cs ==> c !in dir.chain
    ensures node != null && fresh(node) && OpenIn(fs, dir, node, name) && node.chain == cs
    ensures node.size == FileSize(e) && (node.isDirectory <==> Attributes(e) / ATTR_DIRECTORY % 2 == 1)
  {
    hide NodeOk, NodeReadable, DirEntries, Listing, LowerAll, DirectoryOk, ChainFrom, StartCluster, FileSize, IsChain,
         InData, KeyOnce;
    DirectoryParts(fs.g, DirEntries(fs.vol, dir.chain));
    NodeFacts(fs, dir);
    node := VnodeLookup(fs, dir, name);
    OpenedOk(fs, dir, e, node, cs);
  }

  // ---- creating ----

  /** What a creation does to the table: the file and the directory took free clusters, and nothing else changed. */
  lemma CreatedTable(g: Geometry, v: Volume, v': Volume, cs: seq<nat>, cs': seq<nat>, at: nat, e: Entry, c: nat,
                     first: seq<byte>)
    requires Created(g, v, v', cs, cs', at, e, c, first) && v.table[c] == FREE
    ensures Free(v'.table) == Free(v.table) - Elems([c]) - Elems(cs') && Elems([c]) <= Free(v.table)
    ensures LinksInRange(g, v.table) ==> LinksInRange(g, v'.table)
  {
    hide DirEntries, ZeroEntries, FirstSlot;
    forall x | x in cs'
      ensures x < |v'.table| && v'.table[x] != FREE && LinkInRange(g, v'.table[x])
    {
      ChainLinksInRange(g, v'.table, cs', x);
    }
    forall x: nat
      ensures x in Free(v'.table) <==> x in Free(v.table) && x !in Elems([c]) && x !in Elems(cs')
    {
    }
  }

  /** Room after a creation. */
  lemma CreatedRoom(g: Geometry, v: Volume, v': Volume, cs: seq<nat>, cs': seq<nat>, at: nat, e: Entry, c: nat,
                    first: seq<byte>, n: int)
    requires Created(g, v, v', cs, cs', at, e, c, first) && v.table[c] == FREE && IsChain(g, v.table, cs)
             && Room(g, v.table, n)
    ensures Room(g, v'.table, n - 1 - (|cs'| - |cs|))
  {
    hide DirEntries, ZeroEntries, FirstSlot, FreeInData;
    CreatedInside(g, v, v', cs, cs', at, e, c, first);
    var extra := if |cs'| == |cs| then {} else {cs'[|cs|]};
    forall x | x in FreeData(g, v.table) - {c} - extra
      ensures x in FreeData(g, v'.table)
    {
      if x in cs' {
        var i :| 0 <= i < |cs'| && cs'[i] == x;
        assert i < |cs| ==> cs[i] == x;
        InChainUsed(g, v.table, cs, x);
      }
    }
    SubsetSize(FreeData(g, v.table) - {c} - extra, FreeData(g, v'.table));
  }

  lemma CreatedInside(g: Geometry, v: Volume, v': Volume, cs: seq<nat>, cs': seq<nat>, at: nat, e: Entry, c: nat,
                      first: seq<byte>)
    requires Created(g, v, v', cs, cs', at, e, c, first)
    ensures FreeInData(g, v.table) ==> FreeInData(g, v'.table)
  {
    hide DirEntries, ZeroEntries, FirstSlot;
  }

  lemma ListingPlus<K, V>(m: map<K, V>, k: K, v: V)
    ensures m[k := v] - {k} == m - {k}
  {
  }

  /** Creates a file and looks it up. It fails exactly when no cluster is free or the creation leaks the one it
      takes. */
  method CreateAndOpen(fs: Fat32, dir: FatNode, name: seq<byte>, isDirectory: bool, ghost room: int)
      returns (node: FatNode?)
    requires NodeOk(fs, dir) && InData(fs.vol, dir.chain) && DirectoryOk(fs.g, DirEntries(fs.vol, dir.chain))
    requires Storable(name) && 0 !in name && LowerAll(name) !in Listing(DirEntries(fs.vol, dir.chain))
    requires Room(fs.g, fs.vol.table, room) && room >= CreateTakes(dir.chain, HasSlot(DirEntries(fs.vol, dir.chain)))
    modifies fs, dir`chain
    ensures NodeOk(fs, dir) && Kept(fs.g, old(fs.disk), fs.disk) && OutsideKept(fs.g, old(fs.vol.table), fs.vol.table)
    ensures node == null <==> old(Free(fs.vol.table) == {} || Leaks(fs.vol.table, dir.chain,
                                                                    HasSlot(DirEntries(fs.vol, dir.chain))))
    ensures node == null ==> dir.chain == old(dir.chain) && (dir.chain == [] || NoFree(fs.vol.table))
    ensures node != null ==> fresh(node) && OpenIn(fs, dir, node, name) && node.size == 0
                             && node.isDirectory == isDirectory && |node.chain| == 1
                             && node.firstCluster == node.chain[0]
    ensures node != null ==> Starts(fs.g, fs.vol, node.chain, isDirectory, dir.firstCluster)
    ensures node != null ==> NoOtherName(old(DirEntries(fs.vol, dir.chain)), DirEntries(fs.vol, dir.chain),
                                         LowerAll(name))
    ensures node != null ==> Free(fs.vol.table) == old(Free(fs.vol.table)) - Elems(node.chain) - Elems(dir.chain)
    ensures node != null ==> Elems(node.chain) <= old(Free(fs.vol.table))
    ensures node != null ==> |dir.chain|
                             == old(|dir.chain| + CreateTakes(dir.chain, HasSlot(DirEntries(fs.vol, dir.chain))) - 1)
    ensures node != null ==> Room(fs.g, fs.vol.table, room - 1 - (|dir.chain| - |old(dir.chain)|))
    ensures node != null && old(LinksInRange(fs.g, fs.vol.table)) ==> LinksInRange(fs.g, fs.vol.table)
  {
    hide NodeOk, NodeReadable, Kept, Shaped, Contents, DirEntries, NewEntry, Listing, LowerAll, LongName, ShortName,
         DirectoryOk, Storable, ChainFrom, Key, IsLive, StartCluster, FileSize;
    hide IsChain, Owns, EntryPlaced, InData, NoFree, Created, CreateOutcome, Free, Elems, Leaks, Room, HasSlot,
         LinksInRange, IsLowestFree, Fits, Taken, OutsideKept;
    ghost var v0, cs0 := fs.vol, dir.chain;
    NodeFacts(fs, dir);
    StorableFits(name);
    RoomLess(fs.g, v0.table, room, CreateTakes(cs0, HasSlot(DirEntries(v0, cs0))));
    var r, c, at := VnodeCreate(fs, dir, name, isDirectory);
    ghost var first := FirstCluster(fs.g, isDirectory, c, dir.firstCluster);
    ghost var e: Entry := NewEntry(ShortName(name), TypeAttribute(isDirectory), c);
    OutcomeParts(fs.g, v0, fs.vol, cs0, dir.chain, r, at, e, c, first);
    OutcomeOutside(fs.g, v0, fs.vol, cs0, dir.chain, r, at, e, c, first);
    if r != 0 { return null; }
    CreatedListing(fs.g, v0, fs.vol, cs0, dir.chain, at, name, isDirectory, c, first);
    CreatedChain(fs.g, v0, fs.vol, cs0, dir.chain, at, e, c, first);
    CreatedTable(fs.g, v0, fs.vol, cs0, dir.chain, at, e, c, first);
    CreatedRoom(fs.g, v0, fs.vol, cs0, dir.chain, at, e, c, first, room);
    ListingPlus(Listing(DirEntries(v0, cs0)), LowerAll(name), e);
    CreatedStarts(fs.g, v0, fs.vol, cs0, dir.chain, at, e, c, isDirectory, dir.firstCluster);
    node := Reopen(fs, dir, name, e, [c]);
    OpenStart(fs, dir, node, name);
  }

  /** The one cluster of something new: zeros, or the first cluster of a directory. */
  ghost predicate Starts(g: Geometry, v: Volume, cs: seq<nat>, isDirectory: bool, parent: nat) {
    && g.Valid() && |cs| == 1 && 2 <= cs[0] < |v.data| + 2 && cs[0] < U32 && parent < U32
    && v.data[cs[0] - 2] == FirstCluster(g, isDirectory, cs[0], parent)
  }

  lemma CreatedStarts(g: Geometry, v: Volume, v': Volume, cs: seq<nat>, cs': seq<nat>, at: nat, e: Entry, c: nat,
                      isDirectory: bool, parent: nat)
    requires g.Valid() && c < U32 && parent < U32
             && Created(g, v, v', cs, cs', at, e, c, FirstCluster(g, isDirectory, c, parent))
    ensures Starts(g, v', [c], isDirectory, parent)
  {
    hide DirEntries, FirstSlot, ZeroEntries, HasSlot, FirstCluster;
  }

  lemma OpenStart(fs: Fat32, dir: FatNode, node: FatNode, name: seq<byte>)
    requires OpenIn(fs, dir, node, name) && node.chain != []
    ensures node.firstCluster == node.chain[0]
  {
    hide Listing, DirEntries, LowerAll, KeyOnce, DirectoryOk;
    NodeFacts(fs, node);
  }

  // ---- directories ----

  /** What a new directory holds: itself and its parent. */
  ghost predicate HoldsDots(g: Geometry, v: Volume, cs: seq<nat>, self: nat, parent: nat) {
    && InData(v, cs) && DirectoryOk(g, DirEntries(v, cs))
    && var l := Listing(DirEntries(v, cs));
       && l.Keys == {[DOT], [DOT, DOT]}
       && StartCluster(l[[DOT]]) == self && StartCluster(l[[DOT, DOT]]) == parent
       && Attributes(l[[DOT]]) / ATTR_DIRECTORY % 2 == 1 && Attributes(l[[DOT, DOT]]) / ATTR_DIRECTORY % 2 == 1
  }

  lemma StartsWithDots(g: Geometry, v: Volume, cs: seq<nat>, parent: nat)
    requires Starts(g, v, cs, true, parent) && LinkInRange(g, cs[0]) && LinkInRange(g, parent)
    ensures HoldsDots(g, v, cs, cs[0], parent)
  {
    hide StartCluster, Listing, DirectoryOk, NewEntry, DotsCluster, LinkInRange;
    var n := g.Bpc() - 2 * ENTRY_SIZE;
    assert n % ENTRY_SIZE == 0;
    DotsListing(g, n, cs[0], parent);
    NewEntryReads(DotName(), ATTR_DIRECTORY, cs[0]);
    NewEntryReads(DotDotName(), ATTR_DIRECTORY, parent);
    assert Contents(v, cs) == v.data[cs[0] - 2] + Contents(v, cs[1..]);
    assert v.data[cs[0] - 2] + [] == v.data[cs[0] - 2];
  }

  lemma NewDirectoryOpen(fs: Fat32, dir: FatNode, node: FatNode, name: seq<byte>)
    requires OpenIn(fs, dir, node, name) && |node.chain| == 1 && node.firstCluster == node.chain[0]
    requires Starts(fs.g, fs.vol, node.chain, true, dir.firstCluster) && dir.chain != []
    ensures NodeReadable(fs, node) && InData(fs.vol, node.chain) && NoLongNames(DirEntries(fs.vol, node.chain))
    ensures HoldsDots(fs.g, fs.vol, node.chain, node.firstCluster, dir.firstCluster)
            && node.chain == [node.firstCluster]
    ensures NodeReadable(fs, dir) && InData(fs.vol, dir.chain) && NoLongNames(DirEntries(fs.vol, dir.chain))
    ensures IsChain(fs.g, fs.vol.table, dir.chain) && dir.chain[0] == dir.firstCluster && fs.g.End() <= EOC
    ensures IsChain(fs.g, fs.vol.table, node.chain)
  {
    hide Listing, LowerAll, DirectoryOk, StartCluster, FileSize, IsChain, KeyOnce, FirstCluster, Opens, Contents,
         EntriesOf, Key, IsLive, LinkInRange;
    NodeFacts(fs, dir);
    NodeFacts(fs, node);
    NodeOkAgain(fs, dir);
    StartLinks(fs, node);
    StartLinks(fs, dir);
    StartsWithDots(fs.g, fs.vol, node.chain, dir.firstCluster);
    DirectoryParts(fs.g, DirEntries(fs.vol, node.chain));
    DirectoryParts(fs.g, DirEntries(fs.vol, dir.chain));
  }

  /** The nodes opened from the dot entries. */
  lemma DotChains(fs: Fat32, dir: FatNode, node: FatNode, self: FatNode, up: FatNode)
    requires NodeReadable(fs, dir) && HoldsDots(fs.g, fs.vol, node.chain, node.firstCluster, dir.firstCluster)
    requires IsChain(fs.g, fs.vol.table, dir.chain) && dir.chain[0] == dir.firstCluster && fs.g.End() <= EOC
    requires IsChain(fs.g, fs.vol.table, node.chain) && node.chain == [node.firstCluster]
    requires Opens(fs.vol, node.chain, Listing(DirEntries(fs.vol, node.chain))[[DOT]], self)
    requires Opens(fs.vol, node.chain, Listing(DirEntries(fs.vol, node.chain))[[DOT, DOT]], up)
    requires self.chain == ChainFrom(fs.g, fs.vol.table, self.firstCluster)
    requires up.chain == ChainFrom(fs.g, fs.vol.table, up.firstCluster)
    ensures self.isDirectory && self.chain == node.chain
    ensures up.isDirectory && up.chain == dir.chain && up.firstCluster == dir.firstCluster && NodeReadable(fs, up)
  {
    hide Listing, DirectoryOk, DirEntries, StartCluster, FileSize, IsChain, ChainFrom, Fat32.Valid, EntryIn;
    ChainFromUnique(fs.g, fs.vol.table, node.firstCluster, node.chain);
    ChainFromUnique(fs.g, fs.vol.table, dir.firstCluster, dir.chain);
  }

  lemma AgainChain(fs: Fat32, dir: FatNode, node: FatNode, name: seq<byte>, again: FatNode)
    requires OpenIn(fs, dir, node, name) && node.chain == [node.firstCluster] && IsChain(fs.g, fs.vol.table, node.chain)
             && fs.g.End() <= EOC
    requires Opens(fs.vol, dir.chain, Listing(DirEntries(fs.vol, dir.chain))[LowerAll(name)], again)
    requires again.chain == ChainFrom(fs.g, fs.vol.table, again.firstCluster)
    ensures again.isDirectory == node.isDirectory && again.chain == node.chain
  {
    hide Listing, DirectoryOk, DirEntries, StartCluster, FileSize, IsChain, ChainFrom, Fat32.Valid, EntryIn, KeyOnce,
         NodeOk, LowerAll;
    ChainFromUnique(fs.g, fs.vol.table, node.firstCluster, node.chain);
  }

  lemma OpenKey(fs: Fat32, dir: FatNode, node: FatNode, name: seq<byte>)
    requires OpenIn(fs, dir, node, name)
    ensures InData(fs.vol, dir.chain) && LowerAll(name) in Listing(DirEntries(fs.vol, dir.chain))
  {
    hide Listing, DirectoryOk, DirEntries, KeyOnce, NodeOk, LowerAll, Opens;
  }

  lemma DotKeysListed(g: Geometry, v: Volume, cs: seq<nat>, self: nat, parent: nat)
    requires HoldsDots(g, v, cs, self, parent)
    ensures InData(v, cs) && LowerAll([DOT]) == [DOT] && LowerAll([DOT, DOT]) == [DOT, DOT]
    ensures [DOT] in Listing(DirEntries(v, cs)) && [DOT, DOT] in Listing(DirEntries(v, cs))
  {
    hide Listing, DirEntries, DirectoryOk, StartCluster;
    LowerDots();
  }

  /** Creates a directory, looks it up, goes back up through its `..` and down again by name: one arrives where one was.
      It fails exactly when a file could not be created. */
  method CreateDirectory(fs: Fat32, dir: FatNode, name: seq<byte>, ghost room: int)
      returns (node: FatNode?, self: FatNode?, up: FatNode?, again: FatNode?)
    requires NodeOk(fs, dir) && InData(fs.vol, dir.chain) && DirectoryOk(fs.g, DirEntries(fs.vol, dir.chain))
    requires Storable(name) && 0 !in name && LowerAll(name) !in Listing(DirEntries(fs.vol, dir.chain))
             && dir.chain != []
    requires Room(fs.g, fs.vol.table, room) && room >= CreateTakes(dir.chain, HasSlot(DirEntries(fs.vol, dir.chain)))
    modifies fs, dir`chain
    ensures node == null <==> old(Free(fs.vol.table) == {} || Leaks(fs.vol.table, dir.chain,
                                                                    HasSlot(DirEntries(fs.vol, dir.chain))))
    ensures node != null ==> OpenIn(fs, dir, node, name) && node.isDirectory && node.size == 0
                             && node.chain == [node.firstCluster]
                             && HoldsDots(fs.g, fs.vol, node.chain, node.firstCluster, dir.firstCluster)
    ensures node != null ==> self != null && self.isDirectory && self.chain == node.chain
    ensures node != null ==> up != null && up.isDirectory && up.chain == dir.chain
    ensures node != null ==> again != null && again.isDirectory && again.chain == node.chain
  {
    hide NodeOk, NodeReadable, DirEntries, Listing, LowerAll, DirectoryOk, ChainFrom, StartCluster, FileSize, IsChain,
         InData, KeyOnce, Storable, Room, Free, Leaks, HasSlot, OpenIn, Starts, FirstCluster, Opens, Owns, EntryPlaced,
         Kept, OutsideKept, LinksInRange, NoOtherName, Elems, Fits, Shaped, Fat32.Valid, Geometry.Valid, HoldsDots;
    NodeFacts(fs, dir);
    node := CreateAndOpen(fs, dir, name, true, room);
    if node == null { return null, null, null, null; }
    NewDirectoryOpen(fs, dir, node, name);
    DotKeysListed(fs.g, fs.vol, node.chain, node.firstCluster, dir.firstCluster);
    OpenKey(fs, dir, node, name);
    self := VnodeLookup(fs, node, [DOT]);
    up := VnodeLookup(fs, node, [DOT, DOT]);
    DotChains(fs, dir, node, self, up);
    again := VnodeLookup(fs, up, name);
    AgainChain(fs, dir, node, name, again);
  }

  lemma RoomLess(g: Geometry, t: seq<nat>, n: int, m: int)
    requires Room(g, t, n) && m <= n
    ensures Room(g, t, m)
  {
  }

  /** The outcome of a creation, case by case. */
  lemma OutcomeParts(g: Geometry, v: Volume, v': Volume, cs: seq<nat>, cs': seq<nat>, r: int, at: nat, e: Entry,
                     c: nat, first: seq<byte>)
    requires CreateOutcome(g, v, v', cs, cs', r, at, e, c, first) && (cs == [] || IsChain(g, v.table, cs))
    ensures r != 0 <==> Free(v.table) == {} || Leaks(v.table, cs, HasSlot(DirEntries(v, cs)))
    ensures r != 0 ==> cs' == cs && (cs' == [] || NoFree(v'.table))
    ensures r == 0 ==> Created(g, v, v', cs, cs', at, e, c, first) && IsChain(g, v.table, cs) && c < |v.table|
                       && v.table[c] == FREE
    ensures r == 0 ==> |cs'| == |cs| + CreateTakes(cs, HasSlot(DirEntries(v, cs))) - 1
  {
    hide DirEntries, HasSlot, IsChain, FirstSlot, ZeroEntries;
    LowestFreeIs(v.table, c);
    if c == 0 {
      assert Free(v.table) == {};
    } else {
      LastOneTaken(g, v, c);
    }
  }

  lemma OutcomeOutside(g: Geometry, v: Volume, v': Volume, cs: seq<nat>, cs': seq<nat>, r: int, at: nat, e: Entry,
                       c: nat, first: seq<byte>)
    requires CreateOutcome(g, v, v', cs, cs', r, at, e, c, first)
    ensures OutsideKept(g, v.table, v'.table)
  {
    hide DirEntries, HasSlot, FirstSlot, ZeroEntries, Leaks;
  }

  lemma StorableFits(name: seq<byte>)
    requires Storable(name)
    ensures LongName(ShortName(name)) == LowerAll(name)
  {
    FormatUndoesCreateIff(name);
  }

  lemma CreatedChain(g: Geometry, v: Volume, v': Volume, cs: seq<nat>, cs': seq<nat>, at: nat, e: Entry, c: nat,
                     first: seq<byte>)
    requires Created(g, v, v', cs, cs', at, e, c, first)
    ensures IsChain(g, v'.table, [c]) && [c][0] == c >= 2 && (forall x :: x in [c] ==> x !in cs') && InData(v', cs')
  {
    hide DirEntries;
  }

  // ---- writing ----

  lemma {:induction false} ListingVisible(g: Geometry, es: seq<Entry>, key: seq<byte>)
    requires key in Listing(es) && StartsInRange(g, es)
    ensures IsVisible(Listing(es)[key]) && Key(Listing(es)[key]) == key
            && LinkInRange(g, StartCluster(Listing(es)[key]))
  {
    hide Key, IsLive, LinkInRange, StartCluster;
    if !(IsLive(es[0]) && Key(es[0]) == key) {
      forall i | 0 <= i < |es[1..]| && IsVisible(es[1..][i])
        ensures LinkInRange(g, StartCluster(es[1..][i]))
      {
        assert es[1..][i] == es[i + 1];
      }
      ListingVisible(g, es[1..], key);
    }
  }

  lemma LiveIsNoLongName(e: Entry)
    requires IsVisible(e)
    ensures Attributes(e) != ATTR_LFN
  {
  }

  /** After a write the directory is as it was except for the file's own entry, and still apart from the file. */
  lemma WriteInDirectory(g: Geometry, v: Volume, v': Volume, dirCs: seq<nat>, cs: seq<nat>, cs': seq<nat>, dir: nat,
                         o: nat, e: Entry, key: seq<byte>, gotFirst: bool, first: nat, grew: bool, size: nat)
    requires Shaped(g, v) && IsChain(g, v.table, dirCs) && InData(v, dirCs) && dir in dirCs && 2 <= dir < |v.data| + 2
    requires o % ENTRY_SIZE == 0 && o + ENTRY_SIZE <= |v.data[dir - 2]| && EntryIn(v.data[dir - 2], o) == e
    requires Extended(g, v, v', cs, cs', dir) && (forall c :: c in cs' ==> c !in dirCs)
    requires EntryResult(v, v', dir, o, gotFirst, first, grew, size) && first < U32
             && (gotFirst ==> LinkInRange(g, first))
    requires DirectoryOk(g, DirEntries(v, dirCs)) && key in Listing(DirEntries(v, dirCs))
             && Listing(DirEntries(v, dirCs))[key] == e
    requires KeyOnce(DirEntries(v, dirCs), key)
    ensures InData(v', dirCs) && DirectoryOk(g, DirEntries(v', dirCs))
            && StayOnce(DirEntries(v, dirCs), DirEntries(v', dirCs))
    ensures var e' := EntryAfter(e, gotFirst, first, grew, size);
            && Listing(DirEntries(v', dirCs)) == Listing(DirEntries(v, dirCs))[key := e']
            && Attributes(e') == Attributes(e)
            && StartCluster(e') == (if gotFirst then first else StartCluster(e))
            && FileSize(e') == if grew then size % U32 else FileSize(e)
    ensures NoOtherName(DirEntries(v, dirCs), DirEntries(v', dirCs), key)
  {
    hide DirEntries, Listing, Key, IsLive, Contents, IsChain, LinkInRange, StartCluster, FileSize, Splice, DirectoryOk,
         EntryAfter, Extended, KeyOnce;
    DirectoryParts(g, DirEntries(v, dirCs));
    ListingVisible(g, DirEntries(v, dirCs), key);
    LiveIsNoLongName(e);
    var e': Entry := EntryAfter(e, gotFirst, first, grew, size);
    EntryAfterKeeps(e, gotFirst, first, grew, size);
    assert |v.data[dir - 2]| == g.Bpc();
    DirectoryAfterWrite(g, v, v', dirCs, cs, cs', dir, o, e, key, e');
    ListingPlus(Listing(DirEntries(v, dirCs)), key, e');
  }

  /** What a write does to the table: the file took free clusters, and nothing else changed. */
  lemma ExtendedTable(g: Geometry, v: Volume, v': Volume, cs: seq<nat>, cs': seq<nat>, dir: nat)
    requires Extended(g, v, v', cs, cs', dir) && (cs == [] || IsChain(g, v.table, cs))
    ensures Free(v'.table) == Free(v.table) - Elems(cs') && Elems(cs') <= Elems(cs) + Free(v.table)
    ensures LinksInRange(g, v.table) ==> LinksInRange(g, v'.table)
  {
    forall x | x in cs'
      ensures 2 <= x < |v'.table| && v'.table[x] != FREE && LinkInRange(g, v'.table[x])
              && (x in cs || v.table[x] == FREE)
    {
      ChainLinksInRange(g, v'.table, cs', x);
      var i :| 0 <= i < |cs'| && cs'[i] == x;
      assert i < |cs| ==> cs[i] == x;
    }
    forall x: nat
      ensures x in Free(v'.table) <==> x in Free(v.table) && x !in Elems(cs')
    {
    }
  }

  lemma WritingParts(g: Geometry, v: Volume, cs: seq<nat>, dir: nat, pos: nat, buffer: seq<byte>, v': Volume,
                     cs': seq<nat>, n: nat)
    requires Writing(g, v, cs, dir, pos, buffer, v', cs', n)
    ensures Extended(g, v, v', cs, cs', dir) && IsChain(g, v'.table, cs') && [] != cs' && cs <= cs' && InData(v', cs')
  {
  }

  /** The state after a write to an open file, whatever its outcome, given what was so before in volume `v`. */
  lemma StaysOpen(fs: Fat32, dir: FatNode, node: FatNode, v: Volume, cs: seq<nat>, gotFirst: bool, size: nat, e: Entry,
                  key: seq<byte>)
    requires NodeOk(fs, node) && Shaped(fs.g, v) && InData(v, dir.chain) && (cs == [] || IsChain(fs.g, v.table, cs))
    requires Owns(fs.g, v.table, dir.firstCluster, dir.chain)
             && EntryPlaced(fs.g, v.table, dir.dirCluster, dir.dirEntryOffset, dir.chain)
    requires DirectoryOk(fs.g, DirEntries(v, dir.chain)) && key in Listing(DirEntries(v, dir.chain))
             && Listing(DirEntries(v, dir.chain))[key] == e
    requires KeyOnce(DirEntries(v, dir.chain), key)
    requires node.dirCluster in dir.chain && 2 <= node.dirCluster < |v.data| + 2
             && node.dirEntryOffset % ENTRY_SIZE == 0
    requires node.dirEntryOffset + ENTRY_SIZE <= |v.data[node.dirCluster - 2]|
             && EntryIn(v.data[node.dirCluster - 2], node.dirEntryOffset) == e
    requires (forall c :: c in cs ==> c !in dir.chain) && Extended(fs.g, v, fs.vol, cs, node.chain, node.dirCluster)
    requires EntryResult(v, fs.vol, node.dirCluster, node.dirEntryOffset, gotFirst, node.firstCluster,
                         node.size != size, node.size)
    ensures NodeOk(fs, dir) && InData(fs.vol, dir.chain) && DirectoryOk(fs.g, DirEntries(fs.vol, dir.chain))
            && node.firstCluster < U32
    ensures StayOnce(DirEntries(v, dir.chain), DirEntries(fs.vol, dir.chain))
            && KeyOnce(DirEntries(fs.vol, dir.chain), key)
    ensures forall c :: c in node.chain ==> c !in dir.chain
    ensures var e' := EntryAfter(e, gotFirst, node.firstCluster, node.size != size, node.size);
            && Listing(DirEntries(fs.vol, dir.chain)) == Listing(DirEntries(v, dir.chain))[key := e']
            && Attributes(e') == Attributes(e)
            && StartCluster(e') == (if gotFirst then node.firstCluster else StartCluster(e))
            && FileSize(e') == if node.size != size then node.size % U32 else FileSize(e)
    ensures NoOtherName(DirEntries(v, dir.chain), DirEntries(fs.vol, dir.chain), key)
  {
    hide *;
    NodeFacts(fs, node);
    StartLinks(fs, node);
    OwnsParts(fs.g, v.table, dir.firstCluster, dir.chain, node.dirCluster);
    OtherOwner(fs.g, v, fs.vol, cs, node.chain, node.dirCluster, dir.firstCluster, dir.chain, dir.dirCluster,
               dir.dirEntryOffset);
    NodeOkFrom(fs, dir);
    WriteInDirectory(fs.g, v, fs.vol, dir.chain, cs, node.chain, node.dirCluster, node.dirEntryOffset, e, key,
                     gotFirst, node.firstCluster, node.size != size, node.size);
    StillOnce(DirEntries(v, dir.chain), DirEntries(fs.vol, dir.chain), key);
  }

  lemma StillOnce(es: seq<Entry>, es': seq<Entry>, key: seq<byte>)
    requires StayOnce(es, es') && KeyOnce(es, key)
    ensures KeyOnce(es', key)
  {
  }

  lemma OwnsParts(g: Geometry, t: seq<nat>, first: nat, cs: seq<nat>, c: nat)
    requires Owns(g, t, first, cs) && c in cs
    ensures IsChain(g, t, cs)
  {
  }

  /** Writes an open file at any offset and opens it again by name: the new node has the same chain, and the size
      the first has as far as an entry can hold it. */
  method WriteAndReopen(fs: Fat32, dir: FatNode, node: FatNode, name: seq<byte>, offset: nat, buffer: seq<byte>)
      returns (again: FatNode?)
    requires OpenIn(fs, dir, node, name) && dir != node
    requires 0 < |buffer| < 0x8000_0000 && offset + |buffer| < U32 * U32 && fs.g.Valid()
    requires Room(fs.g, fs.vol.table, ClustersFor(fs.g, Position(fs.g, offset), |buffer|) - |node.chain|)
    modifies fs, node`size, node`firstCluster, node`chain
    ensures Kept(fs.g, old(fs.disk), fs.disk) && OutsideKept(fs.g, old(fs.vol.table), fs.vol.table) && fs.g.Valid()
    ensures again == null ==> NoFree(fs.vol.table)
    ensures node.size <= Max(old(node.size), offset + |buffer|)
    ensures again != null ==> fresh(again) && OpenIn(fs, dir, again, name) && again.chain == node.chain
                              && old(node.chain) <= node.chain
    ensures again != null ==> node.size == Max(old(node.size), offset + |buffer|) && again.size == node.size % U32
                              && again.isDirectory == node.isDirectory
    ensures again != null ==> Writing(fs.g, old(fs.vol), old(node.chain), node.dirCluster, Position(fs.g, offset),
                                      buffer, fs.vol, again.chain, |buffer|)
    ensures again != null ==> NoOtherName(old(DirEntries(fs.vol, dir.chain)), DirEntries(fs.vol, dir.chain),
                                          LowerAll(name))
    ensures again != null ==> Free(fs.vol.table) == old(Free(fs.vol.table)) - Elems(node.chain)
    ensures again != null ==> Elems(node.chain) <= old(Elems(node.chain) + Free(fs.vol.table))
    ensures again != null && old(LinksInRange(fs.g, fs.vol.table)) ==> LinksInRange(fs.g, fs.vol.table)
  {
    hide *;
    ghost var v, cs, key, size := fs.vol, node.chain, LowerAll(name), node.size;
    ghost var e := OpenParts(fs, dir, node, name);
    MaxIs(size, offset + |buffer|);
    var n := VnodeWrite(fs, node, offset, buffer);
    WriteOutside(fs.g, v, cs, node.dirCluster, Position(fs.g, offset), buffer, fs.vol, node.chain, n);
    if n < |buffer| { return null; }
    WritingParts(fs.g, v, cs, node.dirCluster, Position(fs.g, offset), buffer, fs.vol, node.chain, n);
    StaysOpen(fs, dir, node, v, cs, cs == [], size, e, key);
    ExtendedTable(fs.g, v, fs.vol, cs, node.chain, node.dirCluster);
    StartIsChain(fs, node, v.table, cs, size, e);
    again := Reopen(fs, dir, name, EntryAfter(e, cs == [], node.firstCluster, node.size != size, node.size),
                    node.chain);
  }

  /** What being open in a directory comes to. */
  lemma OpenParts(fs: Fat32, dir: FatNode, node: FatNode, name: seq<byte>) returns (e: Entry)
    requires OpenIn(fs, dir, node, name)
    ensures var v := fs.vol;
            && fs.Valid() && NodeOk(fs, node) && Shaped(fs.g, v) && InData(v, dir.chain)
            && (node.chain == [] || IsChain(fs.g, v.table, node.chain))
            && Owns(fs.g, v.table, dir.firstCluster, dir.chain)
            && EntryPlaced(fs.g, v.table, dir.dirCluster, dir.dirEntryOffset, dir.chain)
            && Owns(fs.g, v.table, node.firstCluster, node.chain)
            && DirectoryOk(fs.g, DirEntries(v, dir.chain)) && LowerAll(name) in Listing(DirEntries(v, dir.chain))
            && Listing(DirEntries(v, dir.chain))[LowerAll(name)] == e
            && KeyOnce(DirEntries(v, dir.chain), LowerAll(name))
            && node.dirCluster in dir.chain && 2 <= node.dirCluster < |v.data| + 2
            && node.dirEntryOffset % ENTRY_SIZE == 0
            && node.dirEntryOffset + ENTRY_SIZE <= |v.data[node.dirCluster - 2]|
            && EntryIn(v.data[node.dirCluster - 2], node.dirEntryOffset) == e
            && node.firstCluster == StartCluster(e) && node.size == FileSize(e)
            && (node.isDirectory <==> Attributes(e) / ATTR_DIRECTORY % 2 == 1)
            && (forall c :: c in node.chain ==> c !in dir.chain) && FileSize(e) % U32 == FileSize(e)
  {
    hide DirEntries, Listing, LowerAll, DirectoryOk, StartCluster, FileSize, IsChain, NodeOk, Shaped, InData, Owns,
         EntryPlaced, Fat32.Valid, Geometry.Valid, Geometry.Bpc, Geometry.Entries, Geometry.End, Fits, EntryIn,
         Attributes, AtCluster, KeyOnce;
    NodeFacts(fs, dir);
    NodeFacts(fs, node);
    NodeOkAgain(fs, dir);
    NodeOkAgain(fs, node);
    e := Listing(DirEntries(fs.vol, dir.chain))[LowerAll(name)];
    SmallSize(e);
  }

  lemma SmallSize(e: Entry)
    ensures FileSize(e) % U32 == FileSize(e)
  {
    hide FileSize;
  }

  /** The entry after a write still names the first cluster of the chain. */
  lemma StartIsChain(fs: Fat32, node: FatNode, t: seq<nat>, cs: seq<nat>, size: nat, e: Entry)
    requires NodeOk(fs, node) && Owns(fs.g, t, StartCluster(e), cs) && cs <= node.chain && node.firstCluster < U32
    requires var e' := EntryAfter(e, cs == [], node.firstCluster, node.size != size, node.size);
             StartCluster(e') == if cs == [] then node.firstCluster else StartCluster(e)
    requires node.chain != []
    ensures var e' := EntryAfter(e, cs == [], node.firstCluster, node.size != size, node.size);
            StartCluster(e') != 0 && IsChain(fs.g, fs.vol.table, node.chain) && node.chain[0] == StartCluster(e')
  {
    hide EntryAfter, StartCluster, FileSize;
    NodeFacts(fs, node);
  }

  lemma WriteOutside(g: Geometry, v: Volume, cs: seq<nat>, dir: nat, pos: nat, buffer: seq<byte>, v': Volume,
                     cs': seq<nat>, n: int)
    requires if n <= 0 then Lengthened(g, v, v', cs, cs', dir) else Writing(g, v, cs, dir, pos, buffer, v', cs', n)
    ensures OutsideKept(g, v.table, v'.table)
  {
    hide Contents, WroteSoFar;
  }

  lemma StartLinks(fs: Fat32, node: FatNode)
    requires NodeOk(fs, node)
    ensures LinkInRange(fs.g, node.firstCluster) && node.firstCluster < U32
  {
  }

  lemma StartPosition(g: Geometry)
    requires g.Valid()
    ensures Position(g, 0) == 0
  {
    PositionIsOffset(g, 0);
  }

  lemma WholeBuffer(buffer: seq<byte>)
    ensures buffer[..|buffer|] == buffer && Wanted(false, |buffer|, 0, |buffer|) == |buffer|
  {
  }

  /** How many clusters creating a file and writing its first `n` bytes may take. */
  ghost function SessionTakes(g: Geometry, v: Volume, cs: seq<nat>, n: nat): nat
    requires g.Valid() && InData(v, cs)
  {
    CreateTakes(cs, HasSlot(DirEntries(v, cs))) + ClustersFor(g, 0, n) - 1
  }

  /** Create, look up, write, look up again, read: unless the volume fills up, what comes back is what was written. */
  method RoundTrip(fs: Fat32, dir: FatNode, name: seq<byte>, buffer: seq<byte>) returns (full: bool, back: seq<byte>)
    requires NodeOk(fs, dir) && InData(fs.vol, dir.chain) && DirectoryOk(fs.g, DirEntries(fs.vol, dir.chain))
             && fs.g.Valid()
    requires Storable(name) && 0 !in name && LowerAll(name) !in Listing(DirEntries(fs.vol, dir.chain))
    requires dir.chain != [] && 0 < |buffer| < 0x8000_0000
    requires Room(fs.g, fs.vol.table, SessionTakes(fs.g, fs.vol, dir.chain, |buffer|))
    modifies fs, dir`chain
    ensures Kept(fs.g, old(fs.disk), fs.disk) && OutsideKept(fs.g, old(fs.vol.table), fs.vol.table)
    ensures full ==> NoFree(fs.vol.table)
    ensures !full ==> back == buffer
  {
    hide NodeOk, NodeReadable, Shaped, Contents, DirEntries, Listing, LowerAll, DirectoryOk, NoFree, Storable, Clip,
         Position, Wanted, Kept, Fits, Room;
    hide HasSlot, ClustersFor, Free, Elems, Leaks, Writing, LinksInRange, NoOtherName, Opens, InData, Geometry.Valid,
         Fat32.Valid;
    ghost var d := fs.disk;
    NodeFacts(fs, dir);
    StartPosition(fs.g);
    var node := CreateAndOpen(fs, dir, name, false, SessionTakes(fs.g, fs.vol, dir.chain, |buffer|));
    if node == null { return true, []; }
    ghost var d1, v1, cs1 := fs.disk, fs.vol, node.chain;
    var again := WriteAndReopen(fs, dir, node, name, 0, buffer);
    KeptTransitive(fs.g, d, d1, fs.disk);
    if again == null { return true, []; }
    NodeFacts(fs, again);
    MaxIs(0, |buffer|);
    WholeBuffer(buffer);
    WrittenReadsBack(fs.g, v1, cs1, node.dirCluster, 0, buffer, fs.vol, again.chain, |buffer|, |buffer|);
    var _, got := VnodeRead(fs, again, 0, |buffer|);
    full, back := false, got;
  }

  // ---- removing ----

  /** Removing an open file gives back exactly its clusters. */
  lemma RemovedTable(g: Geometry, v: Volume, v': Volume, dirCs: seq<nat>, at: nat, key: seq<byte>, cs: seq<nat>)
    requires Removed(v, v', dirCs, at, key) && DirectoryOk(g, DirEntries(v, dirCs))
             && key in Listing(DirEntries(v, dirCs))
    requires IsChain(g, v.table, cs) && StartCluster(Listing(DirEntries(v, dirCs))[key]) == cs[0] && |v.table| <= EOC
             && g.End() <= EOC
    requires IsChain(g, v.table, dirCs) && forall c :: c in cs ==> c !in dirCs
    ensures Free(v'.table) == Free(v.table) + Elems(cs) && |v'.table| == |v.table| && IsChain(g, v'.table, dirCs)
  {
    hide Key, IsLive, Listing, DirEntries, StartCluster, Passed, EntrySet, Deleted;
    ListingHit(DirEntries(v, dirCs), at, key);
    forall c: nat
      ensures c in Free(v'.table) <==> c in Free(v.table) || c in Elems(cs)
    {
      ChainReachable(g, v.table, cs, c);
      if c in cs {
        InChainUsed(g, v.table, cs, c);
      }
    }
    forall c | c in dirCs && c < |v.table|
      ensures v'.table[c] == v.table[c]
    {
      ChainReachable(g, v.table, cs, c);
    }
    ChainSurvives(g, v.table, v'.table, dirCs);
  }

  /** Taken from the free clusters and given back. */
  lemma GivenBack(f0: set<nat>, f1: set<nat>, f2: set<nat>, f3: set<nat>, a: set<nat>, b: set<nat>, d: set<nat>)
    requires f1 == f0 - a - d && a <= f0 && f2 == f1 - b && a <= b <= a + f1 && f3 == f2 + b && b !! d
    ensures f3 == f0 - d
  {
  }

  lemma ElemsOfPrefix(a: seq<nat>, b: seq<nat>, d: seq<nat>)
    requires a <= b && forall c :: c in b ==> c !in d
    ensures Elems(a) <= Elems(b) && Elems(b) !! Elems(d)
  {
    forall c | c in a
      ensures c in b
    {
      var i :| 0 <= i < |a| && a[i] == c;
      assert b[i] == c;
    }
  }

  lemma ListingBack<K, V>(m0: map<K, V>, m1: map<K, V>, m2: map<K, V>, m3: map<K, V>, k: K)
    requires m1 - {k} == m0 - {k} && m2 - {k} == m1 - {k} && m3 == m2 - {k} && k !in m0
    ensures m3 == m0
  {
    assert m0 - {k} == m0;
  }

  lemma ReadableAfter(fs: Fat32, dir: FatNode)
    requires fs.Valid() && IsChain(fs.g, fs.vol.table, dir.chain) && dir.chain[0] == dir.firstCluster
    ensures NodeReadable(fs, dir)
  {
  }

  /** Create, write, remove: afterwards the name is gone, the directory lists what it listed before, and every cluster
      the file took is free again; only the directory may have grown. */
  method CreateWriteRemove(fs: Fat32, dir: FatNode, name: seq<byte>, buffer: seq<byte>)
      returns (full: bool, node: FatNode?)
    requires NodeOk(fs, dir) && InData(fs.vol, dir.chain) && DirectoryOk(fs.g, DirEntries(fs.vol, dir.chain))
             && fs.g.Valid()
    requires Storable(name) && 0 !in name && LowerAll(name) !in Listing(DirEntries(fs.vol, dir.chain))
    requires LinksInRange(fs.g, fs.vol.table) && dir.chain != [] && 0 < |buffer| < 0x8000_0000
    requires Room(fs.g, fs.vol.table, SessionTakes(fs.g, fs.vol, dir.chain, |buffer|))
    modifies fs, dir`chain
    ensures Kept(fs.g, old(fs.disk), fs.disk)
    ensures full ==> NoFree(fs.vol.table)
    ensures !full ==> node == null && InData(fs.vol, dir.chain)
    ensures !full ==> Listing(DirEntries(fs.vol, dir.chain)) == old(Listing(DirEntries(fs.vol, dir.chain)))
    ensures !full ==> Free(fs.vol.table) == old(Free(fs.vol.table)) - Elems(dir.chain)
    ensures !full ==> |dir.chain| == |old(dir.chain)| + old(if HasSlot(DirEntries(fs.vol, dir.chain)) then 0 else 1)
  {
    hide NodeOk, NodeReadable, Shaped, Contents, DirEntries, Listing, LowerAll, DirectoryOk, NoFree, Storable,
         Position, Kept, Fits, Room;
    hide HasSlot, ClustersFor, Free, Elems, Leaks, Writing, LinksInRange, InData, Removed, Geometry.Valid, Fat32.Valid,
         StartCluster, FileSize, Owns, IsChain, EntryIn;
    ghost var d, key, es0, f0 := fs.disk, LowerAll(name), DirEntries(fs.vol, dir.chain), Free(fs.vol.table);
    NodeFacts(fs, dir);
    StartPosition(fs.g);
    var first := CreateAndOpen(fs, dir, name, false, SessionTakes(fs.g, fs.vol, dir.chain, |buffer|));
    if first == null { return true, null; }
    ghost var d1, v1, cs1 := fs.disk, fs.vol, first.chain;
    var again := WriteAndReopen(fs, dir, first, name, 0, buffer);
    KeptTransitive(fs.g, d, d1, fs.disk);
    if again == null { return true, null; }
    ghost var d2, v2, cs2 := fs.disk, fs.vol, again.chain;
    NodeFacts(fs, dir);
    NodeFacts(fs, again);
    NodeOkAgain(fs, dir);
    DirectoryParts(fs.g, DirEntries(fs.vol, dir.chain));
    ElemsOfPrefix(cs1, cs2, dir.chain);
    var r, at := VnodeRemove(fs, dir, name);
    KeptTransitive(fs.g, d, d2, fs.disk);
    RemovedListing(fs.g, v2, fs.vol, dir.chain, at, key);
    RemovedTable(fs.g, v2, fs.vol, dir.chain, at, key, cs2);
    GivenBack(f0, Free(v1.table), Free(v2.table), Free(fs.vol.table), Elems(cs1), Elems(cs2), Elems(dir.chain));
    ListingBack(Listing(es0), Listing(DirEntries(v1, dir.chain)), Listing(DirEntries(v2, dir.chain)),
                Listing(DirEntries(fs.vol, dir.chain)), key);
    DirectoryParts(fs.g, DirEntries(fs.vol, dir.chain));
    ReadableAfter(fs, dir);
    node := VnodeLookup(fs, dir, name);
    full := false;
  }
}
