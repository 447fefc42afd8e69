/** Writing a file (kernel/fs/fat32.cpp:324-427): the chain grows as needed, the bytes are spliced in. */
module FatWrite {
  import opened Bytes
  import opened FatTable
  import opened FatChains
  import opened FatDriver
  import opened FatContents
  import opened FatDirent
  import opened FatFile

  ghost predicate NoFree(t: seq<nat>) {
    forall i :: 2 <= i < |t| ==> t[i] != FREE
  }

  /** From `v` to `v'` the chain `cs` grew to `cs'` by clusters that were free; no link outside the new
      chain changed, and no cluster outside it except possibly directory cluster `dir`. */
  ghost predicate Extended(g: Geometry, v: Volume, v': Volume, cs: seq<nat>, cs': seq<nat>, dir: nat) {
    && Shaped(g, v) && Shaped(g, v')
    && cs <= cs' && (cs' == [] || IsChain(g, v'.table, cs'))
    && (forall i :: |cs| <= i < |cs'| ==> v.table[cs'[i]] == FREE)
    && (forall c :: 0 <= c < |v.table| && c !in cs' ==> v'.table[c] == v.table[c])
    && (forall c :: 2 <= c < g.End() && c !in cs' && c != dir ==> v'.data[c - 2] == v.data[c - 2])
  }

  lemma LowestFreeIs(t: seq<nat>, c: nat)
    requires IsLowestFree(t, c)
    ensures if c == 0 then NoFree(t) else 2 <= c < |t| && t[c] == FREE
  {
  }

  lemma ExtendedSelf(g: Geometry, v: Volume, cs: seq<nat>, dir: nat)
    requires Shaped(g, v) && (cs == [] || IsChain(g, v.table, cs))
    ensures Extended(g, v, v, cs, cs, dir)
  {
  }

  lemma ExtendedGrown(g: Geometry, v0: Volume, v1: Volume, v2: Volume, a: seq<nat>, b: seq<nat>, c: seq<nat>, dir: nat)
    requires Extended(g, v0, v1, a, b, dir) && Grown(g, v1, v2, b, c)
    ensures Extended(g, v0, v2, a, c, dir)
  {
    forall i | |a| <= i < |c|
      ensures v0.table[c[i]] == FREE
    {
      if i < |b| {
        assert b[i] == c[i];
      } else if c[i] !in b {
        assert v1.table[c[i]] == FREE && v1.table[c[i]] == v0.table[c[i]];
      } else {
        InChainUsed(g, v1.table, b, c[i]);
      }
    }
    forall x | x in b
      ensures x in c
    {
      var i :| 0 <= i < |b| && b[i] == x;
      assert c[i] == x;
    }
  }

  lemma InChainUsed(g: Geometry, t: seq<nat>, cs: seq<nat>, c: nat)
    requires IsChain(g, t, cs) && c in cs
    ensures 2 <= c < |t| && t[c] != FREE
  {
    var i :| 0 <= i < |cs| && cs[i] == c;
    assert i < |cs| - 1 ==> t[cs[i]] == cs[i + 1];
  }

  /** Clusters outside a chain that are in use stay outside when the chain grows. */
  lemma UsedStaysOutside(g: Geometry, v: Volume, v': Volume, cs: seq<nat>, cs': seq<nat>, dir: nat, c: nat)
    requires Extended(g, v, v', cs, cs', dir) && c < |v.table| && v.table[c] != FREE && c !in cs
    ensures c !in cs'
  {
    assert forall i :: 0 <= i < |cs| ==> cs[i] == cs'[i];
  }

  /** The link of the k-th cluster of a chain. */
  lemma ChainNext(g: Geometry, t: seq<nat>, cs: seq<nat>, k: nat)
    requires IsChain(g, t, cs) && k < |cs| && g.End() <= BAD
    ensures 2 <= cs[k] < g.End() && cs[k] < |t| && t[cs[k]] != FREE
    ensures if k + 1 < |cs| then Next(t, cs[k]) == cs[k + 1] && 2 <= cs[k + 1] < EOC else Next(t, cs[k]) >= EOC
  {
    assert k < |cs| - 1 ==> t[cs[k]] == cs[k + 1];
  }

  lemma GrownSelf(g: Geometry, v: Volume, cs: seq<nat>)
    requires Shaped(g, v) && IsChain(g, v.table, cs)
    ensures Grown(g, v, v, cs, cs)
  {
  }

  /** Appending a cluster of the data area to a chain. */
  lemma Appended(g: Geometry, v: Volume, cs: seq<nat>, c: nat, room: int)
    requires Shaped(g, v) && IsChain(g, v.table, cs) && IsLowestFree(v.table, c) && c != 0 && c < g.End()
             && Room(g, v.table, room)
    ensures Grown(g, v, Taken(g, v, cs[|cs| - 1], c), cs, cs + [c])
    ensures Room(g, Taken(g, v, cs[|cs| - 1], c).table, room - 1)
  {
    hide Room, Grown;
    ChainNext(g, v.table, cs, |cs| - 1);
    RoomTaken(g, v.table, cs[|cs| - 1], c, room);
    TakenGrown(g, v, cs, c);
  }

  /** `next = get_next(curr); if it ends the chain, next = allocate(curr)` */
  method NextOrAllocate(fs: Fat32, ghost cs: seq<nat>, ghost k: nat, curr: nat, ghost room: int)
      returns (next: nat, ghost cs': seq<nat>)
    requires fs.Valid() && IsChain(fs.g, fs.vol.table, cs) && k < |cs| && curr == cs[k]
    requires Room(fs.g, fs.vol.table, room) && (k + 1 == |cs| ==> room >= 1)
    modifies fs
    ensures Room(fs.g, fs.vol.table, room - (|cs'| - |cs|))
    ensures fs.Valid() && Kept(fs.g, old(fs.disk), fs.disk)
    ensures next == 0 ==> fs.vol == old(fs.vol) && fs.disk == old(fs.disk) && cs' == cs && k + 1 == |cs|
                          && NoFree(fs.vol.table)
    ensures next != 0 ==> k + 1 < |cs'| && next == cs'[k + 1] && |cs'| == (if |cs| >= k + 2 then |cs| else k + 2)
    ensures next != 0 ==> Grown(fs.g, old(fs.vol), fs.vol, cs, cs')
    ensures |cs'| == |cs| ==> fs.vol == old(fs.vol)
  {
    hide Kept, Fits, View, Room, Allocatable, IsLowestFree, Grown, NoFree, IsChain, Shaped, Taken;
    KeptSelf(fs.g, fs.disk);
    ghost var v := fs.vol;
    cs' := cs;
    GeometryFits(fs);
    ChainNext(fs.g, v.table, cs, k);
    GrownSelf(fs.g, v, cs);
    next := fs.GetNextCluster(curr);
    if next < 2 || next >= EOC {
      RoomAllocates(fs.g, v.table, room);
      next := fs.AllocateCluster(curr);
      LowestFreeIs(v.table, next);
      if next != 0 {
        Appended(fs.g, v, cs, next, room);
        cs' := cs + [next];
      }
    }
  }

  lemma GeometryFits(fs: Fat32)
    requires fs.Valid()
    ensures Shaped(fs.g, fs.vol) && fs.g.End() <= fs.g.Entries() <= BAD && |fs.vol.table| == fs.g.Entries()
            && |fs.vol.data| == fs.g.clusters
  {
  }

  /** The body of the writing loop: loads the k-th cluster, replaces bytes from `o` on, stores it. */
  method WriteChunk(fs: Fat32, ghost cs: seq<nat>, ghost k: nat, curr: nat, o: nat, x: seq<byte>)
    requires fs.Valid() && IsChain(fs.g, fs.vol.table, cs) && k < |cs| && curr == cs[k] && o + |x| <= fs.g.Bpc()
    modifies fs
    ensures fs.Valid() && Kept(fs.g, old(fs.disk), fs.disk)
    ensures fs.vol == old(fs.vol).(data := old(fs.vol).data[curr - 2 := Splice(old(fs.vol).data[curr - 2], o, x)])
    ensures InData(fs.vol, cs) && Byte(fs.g.Bpc(), k, o) + |x| <= |old(Contents(fs.vol, cs))|
    ensures Contents(fs.vol, cs) == Splice(old(Contents(fs.vol, cs)), Byte(fs.g.Bpc(), k, o), x)
  {
    hide Kept, Fits, View, Splice;
    ghost var v := fs.vol;
    var clusterBuf := fs.ReadCluster(curr);
    fs.WriteCluster(curr, Splice(clusterBuf, o, x));
    ContentsSplice(fs.g, v, fs.vol, cs, k, o, x);
  }

  lemma ExtendedWritten(g: Geometry, v0: Volume, v1: Volume, v2: Volume, a: seq<nat>, b: seq<nat>, dir: nat, c: nat)
    requires Extended(g, v0, v1, a, b, dir) && Shaped(g, v2) && 2 <= c < g.End() && (c in b || c == dir)
    requires v2 == v1.(data := v1.data[c - 2 := v2.data[c - 2]])
    ensures Extended(g, v0, v2, a, b, dir)
  {
  }

  /** What the contents are while writing: the old bytes, zeros for the clusters added, and the part of the
      buffer written so far spliced in. */
  ghost predicate WroteSoFar(g: Geometry, before: seq<byte>, added: nat, pos: nat, buffer: seq<byte>, n: nat,
                             now: seq<byte>) {
    n <= |buffer| && pos + n <= |before| + added * g.Bpc()
        && now == Splice(before + ZeroClusters(g, added), pos, buffer[..n])
  }

  lemma WroteMore(g: Geometry, before: seq<byte>, added: nat, pos: nat, buffer: seq<byte>, n: nat, now: seq<byte>,
                  m: nat)
    requires WroteSoFar(g, before, added, pos, buffer, n, now) && n + m <= |buffer| && pos + n + m <= |now|
    ensures WroteSoFar(g, before, added, pos, buffer, n + m, Splice(now, pos + n, buffer[n..n + m]))
  {
    SpliceTwice(before + ZeroClusters(g, added), pos, buffer[..n], buffer[n..n + m]);
    assert buffer[..n] + buffer[n..n + m] == buffer[..n + m];
  }

  lemma WroteGrown(g: Geometry, before: seq<byte>, added: nat, pos: nat, buffer: seq<byte>, n: nat, now: seq<byte>,
                   more: nat)
    requires WroteSoFar(g, before, added, pos, buffer, n, now)
    ensures WroteSoFar(g, before, added + more, pos, buffer, n, now + ZeroClusters(g, more))
  {
    SpliceGrow(before + ZeroClusters(g, added), pos, buffer[..n], ZeroClusters(g, more));
    MulSum(added, more, g.Bpc());
    assert ZeroClusters(g, added) + ZeroClusters(g, more) == ZeroClusters(g, added + more);
    Associative(before, ZeroClusters(g, added), ZeroClusters(g, more));
  }

  lemma MulSum(a: nat, b: nat, n: nat)
    ensures (a + b) * n == a * n + b * n
  {
  }

  lemma ExtendedWeaker(g: Geometry, v: Volume, v': Volume, cs: seq<nat>, cs': seq<nat>, dir: nat)
    requires Extended(g, v, v', cs, cs', 0)
    ensures Extended(g, v, v', cs, cs', dir)
  {
  }

  /** A chain grown by zeroed clusters: nothing else changed, and zeros were appended to its contents. */
  ghost predicate Lengthened(g: Geometry, v: Volume, v': Volume, cs: seq<nat>, cs': seq<nat>, dir: nat) {
    && Extended(g, v, v', cs, cs', dir) && |cs| <= |cs'| && InData(v, cs) && InData(v', cs')
    && Contents(v', cs') == Contents(v, cs) + ZeroClusters(g, |cs'| - |cs|)
  }

  lemma LengthenedSelf(g: Geometry, v: Volume, cs: seq<nat>, dir: nat)
    requires Shaped(g, v) && (cs == [] || IsChain(g, v.table, cs))
    ensures Lengthened(g, v, v, cs, cs, dir)
  {
    PlusNone(g, Contents(v, cs));
  }

  lemma LengthenedGrown(g: Geometry, v: Volume, v': Volume, cs: seq<nat>, cs': seq<nat>)
    requires Grown(g, v, v', cs, cs') && (cs == [] || IsChain(g, v.table, cs))
    ensures Lengthened(g, v, v', cs, cs', 0)
  {
    ExtendedSelf(g, v, cs, 0);
    ExtendedGrown(g, v, v, v', cs, cs, cs', 0);
    GrownContents(g, v, v', cs, cs');
  }

  lemma ExtendedTransitive(g: Geometry, v0: Volume, v1: Volume, v2: Volume, a: seq<nat>, b: seq<nat>, c: seq<nat>,
                           dir: nat)
    requires Extended(g, v0, v1, a, b, dir) && Extended(g, v1, v2, b, c, dir)
    ensures Extended(g, v0, v2, a, c, dir)
  {
    forall i | |a| <= i < |c|
      ensures v0.table[c[i]] == FREE
    {
      if i < |b| {
        assert b[i] == c[i];
      } else if c[i] !in b {
        assert v1.table[c[i]] == FREE && v1.table[c[i]] == v0.table[c[i]];
      } else {
        InChainUsed(g, v1.table, b, c[i]);
      }
    }
    forall x | x in b
      ensures x in c
    {
      var i :| 0 <= i < |b| && b[i] == x;
      assert c[i] == x;
    }
  }

  lemma LengthenedTransitive(g: Geometry, v0: Volume, v1: Volume, v2: Volume, a: seq<nat>, b: seq<nat>, c: seq<nat>,
                             dir: nat)
    requires Lengthened(g, v0, v1, a, b, dir) && Lengthened(g, v1, v2, b, c, 0)
    ensures Lengthened(g, v0, v2, a, c, dir)
  {
    hide Extended, Contents, ZeroClusters, InData;
    ExtendedWeaker(g, v1, v2, b, c, dir);
    ExtendedTransitive(g, v0, v1, v2, a, b, c, dir);
    ZeroClustersSum(g, |b| - |a|, |c| - |b|);
    Associative(Contents(v0, a), ZeroClusters(g, |b| - |a|), ZeroClusters(g, |c| - |b|));
  }

  lemma ZeroClustersSum(g: Geometry, a: nat, b: nat)
    ensures ZeroClusters(g, a) + ZeroClusters(g, b) == ZeroClusters(g, a + b)
  {
    MulSum(a, b, g.Bpc());
  }

  lemma GrownNodeOk(g: Geometry, v: Volume, v': Volume, cs: seq<nat>, cs': seq<nat>, first: nat, dir: nat, o: nat)
    requires Extended(g, v, v', cs, cs', 0) && cs != []
    requires Owns(g, v.table, first, cs) && EntryPlaced(g, v.table, dir, o, cs)
    ensures Owns(g, v'.table, first, cs') && EntryPlaced(g, v'.table, dir, o, cs')
  {
    assert cs[0] == cs'[0];
    if dir != 0 {
      UsedStaysOutside(g, v, v', cs, cs', 0, dir);
    }
  }

  /** Moves on from the k-th cluster of a node's chain, allocating when there is no next one. */
  method Advance(fs: Fat32, node: FatNode, ghost k: nat, curr: nat, ghost room: int) returns (next: nat)
    requires NodeOk(fs, node) && k < |node.chain| && curr == node.chain[k]
    requires Room(fs.g, fs.vol.table, room) && (k + 1 == |node.chain| ==> room >= 1)
    modifies fs, node`chain
    ensures Room(fs.g, fs.vol.table, room - (|node.chain| - |old(node.chain)|))
    ensures NodeOk(fs, node) && Kept(fs.g, old(fs.disk), fs.disk)
    ensures Lengthened(fs.g, old(fs.vol), fs.vol, old(node.chain), node.chain, 0)
    ensures next == 0 ==> node.chain == old(node.chain) && k + 1 == |node.chain| && NoFree(fs.vol.table)
    ensures next != 0 ==> k + 1 < |node.chain| && next == node.chain[k + 1]
                          && |node.chain| == (if |old(node.chain)| >= k + 2 then |old(node.chain)| else k + 2)
    ensures |node.chain| == |old(node.chain)| ==> fs.vol == old(fs.vol)
  {
    hide Kept, Fits, View, Room, Contents, ZeroClusters, IsLowestFree;
    ghost var v, cs := fs.vol, node.chain;
    var n, cs' := NextOrAllocate(fs, cs, k, curr, room);
    next, node.chain := n, cs';
    if next == 0 {
      LengthenedSelf(fs.g, v, cs, 0);
    } else {
      LengthenedGrown(fs.g, v, fs.vol, cs, cs');
      GrownNodeOk(fs.g, v, fs.vol, cs, cs', node.firstCluster, node.dirCluster, node.dirEntryOffset);
    }
  }

  /** kernel/fs/fat32.cpp:361-371 */
  method ReachCluster(fs: Fat32, node: FatNode, clusterIdx: nat, ghost room: int) returns (curr: nat)
    requires NodeOk(fs, node) && node.chain != []
    requires Room(fs.g, fs.vol.table, room) && clusterIdx < |node.chain| + room
    modifies fs, node`chain
    ensures Room(fs.g, fs.vol.table, room - (|node.chain| - |old(node.chain)|))
    ensures NodeOk(fs, node) && Kept(fs.g, old(fs.disk), fs.disk)
    ensures Lengthened(fs.g, old(fs.vol), fs.vol, old(node.chain), node.chain, 0)
    ensures if curr == 0 then NoFree(fs.vol.table) && |node.chain| <= clusterIdx
            else clusterIdx < |node.chain| && curr == node.chain[clusterIdx]
    ensures curr != 0 ==> |node.chain| == (if |old(node.chain)| > clusterIdx then |old(node.chain)| else clusterIdx + 1)
  {
    hide *;
    curr := node.firstCluster;
    ghost var d0, v0, cs0 := fs.disk, fs.vol, node.chain;
    NodeFacts(fs, node);
    LengthenedSelf(fs.g, v0, cs0, 0);
    KeptSelf(fs.g, d0);
    var c: nat := 0;
    while c < clusterIdx
      invariant NodeOk(fs, node) && Kept(fs.g, d0, fs.disk)
      invariant c <= clusterIdx && c < |node.chain| && curr == node.chain[c] && curr != 0
      invariant |node.chain| == if |cs0| >= c + 1 then |cs0| else c + 1
      invariant Lengthened(fs.g, v0, fs.vol, cs0, node.chain, 0)
      invariant Room(fs.g, fs.vol.table, room - (|node.chain| - |cs0|))
    {
      ghost var d, v, cs := fs.disk, fs.vol, node.chain;
      curr := Advance(fs, node, c, curr, room - (|node.chain| - |cs0|));
      KeptTransitive(fs.g, d0, d, fs.disk);
      LengthenedTransitive(fs.g, v0, v, fs.vol, cs0, cs, node.chain, 0);
      if curr == 0 { return; }
      c := c + 1;
    }
  }

  /** The directory entry of a node after a write: a first cluster if it just got one, and its size if that grew. */
  function EntryAfter(e: seq<byte>, gotFirst: bool, first: nat, grew: bool, size: nat): (r: seq<byte>)
    requires |e| == ENTRY_SIZE && first < U32
    ensures |r| == ENTRY_SIZE
  {
    var e1 := if gotFirst then WithCluster(e, first) else e;
    if grew then WithSize(e1, size % U32) else e1
  }

  /** The directory cluster `dir` of volume `v'` is that of `v` with the entry at `o` replaced by `e`. */
  ghost predicate EntryReplaced(v: Volume, v': Volume, dir: nat, o: nat, e: seq<byte>) {
    dir != 0 ==> 2 <= dir < |v.data| + 2 && |v'.data| == |v.data| && o + |e| <= |v.data[dir - 2]|
                 && v'.data[dir - 2] == Splice(v.data[dir - 2], o, e)
  }

  /** The directory entry of the node, before and after. */
  ghost predicate EntryResult(v0: Volume, v: Volume, dir: nat, o: nat, gotFirst: bool, first: nat, grew: bool,
                              size: nat) {
    dir != 0 ==> 2 <= dir < |v0.data| + 2 && o + ENTRY_SIZE <= |v0.data[dir - 2]| && first < U32
                 && EntryReplaced(v0, v, dir, o, EntryAfter(EntryIn(v0.data[dir - 2], o), gotFirst, first, grew, size))
  }

  lemma EntryUntouched(v: Volume, v': Volume, dir: nat, o: nat, first: nat, size: nat)
    requires dir != 0 ==> 2 <= dir < |v.data| + 2 && |v'.data| == |v.data| && o + ENTRY_SIZE <= |v.data[dir - 2]|
                          && first < U32
    requires dir != 0 ==> v'.data[dir - 2] == v.data[dir - 2]
    ensures EntryResult(v, v', dir, o, false, first, false, size)
  {
  }

  lemma EntryGrew(v: Volume, v1: Volume, v2: Volume, dir: nat, o: nat, gotFirst: bool, first: nat, size0: nat,
                  size: nat)
    requires EntryResult(v, v1, dir, o, gotFirst, first, false, size0)
    requires dir != 0 ==> o + ENTRY_SIZE <= |v1.data[dir - 2]|
                          && v2 == WithEntry(v1, dir, o, WithSize(EntryIn(v1.data[dir - 2], o), size % U32))
    ensures EntryResult(v, v2, dir, o, gotFirst, first, true, size)
  {
    hide WithSize, WithCluster;
    if dir != 0 {
      var d, e := v.data[dir - 2], EntryIn(v.data[dir - 2], o);
      var e1 := EntryAfter(e, gotFirst, first, false, size);
      assert EntryIn(Splice(d, o, e1), o) == e1;
      assert Splice(Splice(d, o, e1), o, WithSize(e1, size % U32)) == Splice(d, o, WithSize(e1, size % U32));
    }
  }

  /** Growing and filling the chain leaves the directory cluster alone. */
  lemma EntryCarried(g: Geometry, v: Volume, v1: Volume, v2: Volume, cs: seq<nat>, cs': seq<nat>, dir: nat, o: nat,
                     gotFirst: bool, first: nat, size: nat)
    requires EntryResult(v, v1, dir, o, gotFirst, first, false, size)
    requires Extended(g, v1, v2, cs, cs', 0) && EntryPlaced(g, v1.table, dir, o, cs)
    ensures EntryResult(v, v2, dir, o, gotFirst, first, false, size)
  {
    hide WithSize, WithCluster, Splice, IsChain;
    if dir != 0 {
      UsedStaysOutside(g, v1, v2, cs, cs', 0, dir);
    }
  }

  /** A freshly taken first cluster, recorded in the directory entry. */
  lemma FirstFacts(g: Geometry, v: Volume, v1: Volume, v2: Volume, c: nat, dir: nat, o: nat, size: nat)
    requires Shaped(g, v) && 2 <= c < g.End() && v.table[c] == FREE && v1 == Taken(g, v, 0, c)
    requires EntryPlaced(g, v.table, dir, o, [])
    requires c < U32 && v2 == if dir == 0 then v1
             else WithEntry(v1, dir, o, WithCluster(EntryIn(v1.data[dir - 2], o), c))
    ensures Shaped(g, v2) && Lengthened(g, v, v2, [], [c], dir)
    ensures IsChain(g, v2.table, [c]) && EntryPlaced(g, v2.table, dir, o, [c])
    ensures EntryResult(v, v2, dir, o, true, c, false, size)
  {
    hide Splice, WithCluster, EntryIn;
    TakenGrown(g, v, [], c);
    ExtendedSelf(g, v, [], dir);
    ExtendedGrown(g, v, v, v1, [], [], [c], dir);
    assert Contents(v2, [c]) == v2.data[c - 2] + Contents(v2, []);
    assert v2.data[c - 2] == Zeros(g.Bpc());
  }

  lemma PlusNone(g: Geometry, s: seq<byte>)
    ensures s + ZeroClusters(g, 0) == s
  {
  }

  /** kernel/fs/fat32.cpp:332-351: a file without clusters gets its first one. */
  method EnsureFirst(fs: Fat32, node: FatNode, ghost room: int) returns (ok: bool)
    requires NodeOk(fs, node)
    requires Room(fs.g, fs.vol.table, room) && (node.chain == [] ==> room >= 1)
    modifies fs, node`firstCluster, node`chain
    ensures NodeOk(fs, node) && Kept(fs.g, old(fs.disk), fs.disk)
    ensures ok <==> node.chain != []
    ensures !ok ==> fs.vol == old(fs.vol) && NoFree(fs.vol.table)
    ensures old(node.chain) != [] ==> fs.vol == old(fs.vol) && node.chain == old(node.chain)
                                      && node.firstCluster == old(node.firstCluster)
    ensures Lengthened(fs.g, old(fs.vol), fs.vol, old(node.chain), node.chain, node.dirCluster)
    ensures |node.chain| == if ok && old(node.chain) == [] then 1 else |old(node.chain)|
    ensures Room(fs.g, fs.vol.table, room - (|node.chain| - |old(node.chain)|))
    ensures EntryResult(old(fs.vol), fs.vol, node.dirCluster, node.dirEntryOffset,
                        old(node.chain) == [] && node.chain != [], node.firstCluster, false, node.size)
  {
    hide Kept, Fits, View, WithCluster, EntryIn, Contents, EntryResult, Lengthened, Room, Allocatable;
    ghost var d0, v0, cs0 := fs.disk, fs.vol, node.chain;
    KeptSelf(fs.g, d0);
    LengthenedSelf(fs.g, v0, cs0, node.dirCluster);
    NodeFacts(fs, node);
    EntryUntouched(v0, v0, node.dirCluster, node.dirEntryOffset, node.firstCluster, node.size);
    ok := true;
    if node.firstCluster == 0 {
      RoomAllocates(fs.g, v0.table, room);
      var c := fs.AllocateCluster(0);
      node.firstCluster := c;
      if c == 0 {
        return false;
      }
      ghost var d, v1 := fs.disk, fs.vol;
      RoomTaken(fs.g, v0.table, 0, c, room);
      assert c < U32;
      if node.dirCluster != 0 {
        StoreStartCluster(fs, node.dirCluster, node.dirEntryOffset, c);
        KeptTransitive(fs.g, d0, d, fs.disk);
      }
      FirstFacts(fs.g, v0, v1, fs.vol, c, node.dirCluster, node.dirEntryOffset, node.size);
      node.chain := [c];
    }
  }

  /** The state of the writing loop: from volume `v0` and chain `cs0` to `v` and `cs`, `n` bytes written. */
  ghost predicate Writing(g: Geometry, v0: Volume, cs0: seq<nat>, dir: nat, pos: nat, buffer: seq<byte>, v: Volume,
                          cs: seq<nat>, n: nat) {
    && Extended(g, v0, v, cs0, cs, dir) && |cs0| <= |cs| && IsChain(g, v.table, cs)
    && InData(v0, cs0) && InData(v, cs)
    && WroteSoFar(g, Contents(v0, cs0), |cs| - |cs0|, pos, buffer, n, Contents(v, cs))
  }

  lemma WritingStarts(g: Geometry, v: Volume, cs: seq<nat>, k: nat, o: nat, buffer: seq<byte>)
    requires Shaped(g, v) && IsChain(g, v.table, cs) && k < |cs| && o < g.Bpc()
    ensures Writing(g, v, cs, 0, Byte(g.Bpc(), k, o), buffer, v, cs, 0)
  {
    ContentsAt(g, v, cs, k);
    MulSucc(k, g.Bpc());
    PlusNone(g, Contents(v, cs));
  }

  lemma WritingChunk(g: Geometry, v0: Volume, cs0: seq<nat>, pos: nat, buffer: seq<byte>, v: Volume, cs: seq<nat>,
                     n: nat, v': Volume, c: nat, m: nat)
    requires Writing(g, v0, cs0, 0, pos, buffer, v, cs, n) && Shaped(g, v') && c in cs && n + m <= |buffer|
    requires 2 <= c < g.End() && v' == v.(data := v.data[c - 2 := v'.data[c - 2]])
    requires pos + n + m <= |Contents(v, cs)|
    requires InData(v', cs) && Contents(v', cs) == Splice(Contents(v, cs), pos + n, buffer[n..n + m])
    ensures Writing(g, v0, cs0, 0, pos, buffer, v', cs, n + m)
  {
    hide Contents, WroteSoFar, Splice, Shaped, IsChain;
    WroteMore(g, Contents(v0, cs0), |cs| - |cs0|, pos, buffer, n, Contents(v, cs), m);
    ExtendedWritten(g, v0, v, v', cs0, cs, 0, c);
  }

  lemma WritingLengthened(g: Geometry, v0: Volume, cs0: seq<nat>, pos: nat, buffer: seq<byte>, v: Volume, cs: seq<nat>,
                          n: nat, v': Volume, cs': seq<nat>)
    requires Writing(g, v0, cs0, 0, pos, buffer, v, cs, n) && Lengthened(g, v, v', cs, cs', 0)
    ensures Writing(g, v0, cs0, 0, pos, buffer, v', cs', n)
  {
    ExtendedTransitive(g, v0, v, v', cs0, cs, cs', 0);
    WroteGrown(g, Contents(v0, cs0), |cs| - |cs0|, pos, buffer, n, Contents(v, cs), |cs'| - |cs|);
  }

  /** One turn of the writing loop, up to the move to the next cluster. */
  method WriteTurn(fs: Fat32, node: FatNode, ghost v0: Volume, ghost cs0: seq<nat>, ghost pos: nat, buffer: seq<byte>,
                   written: nat, ghost k: nat, curr: nat, o: nat) returns (toCopy: nat)
    requires NodeOk(fs, node) && written < |buffer|
             && Writing(fs.g, v0, cs0, 0, pos, buffer, fs.vol, node.chain, written)
    requires k < |node.chain| && curr == node.chain[k] && o < fs.g.Bpc() && pos + written == Byte(fs.g.Bpc(), k, o)
    modifies fs
    ensures NodeOk(fs, node) && Kept(fs.g, old(fs.disk), fs.disk)
    ensures 0 < toCopy && written + toCopy <= |buffer| && fs.vol.table == old(fs.vol).table
    ensures Byte(fs.g.Bpc(), k, 0) < pos + written + toCopy <= Byte(fs.g.Bpc(), k + 1, 0)
    ensures written + toCopy < |buffer| ==> pos + written + toCopy == Byte(fs.g.Bpc(), k + 1, 0)
    ensures Writing(fs.g, v0, cs0, 0, pos, buffer, fs.vol, node.chain, written + toCopy)
  {
    hide Kept, Fits, View, Extended, Contents, WroteSoFar, Splice;
    var available := fs.g.Bpc() - o;
    toCopy := if |buffer| - written > available then available else |buffer| - written;
    ghost var v := fs.vol;
    WriteChunk(fs, node.chain, k, curr, o, buffer[written..written + toCopy]);
    WritingChunk(fs.g, v0, cs0, pos, buffer, v, node.chain, written, fs.vol, curr, toCopy);
    MulSucc(k, fs.g.Bpc());
  }

  /** How many clusters a file needs whose last write is of `n` bytes at `pos`. */
  function ClustersFor(g: Geometry, pos: nat, n: nat): (k: nat)
    requires g.Valid()
    ensures k >= 1
  {
    if n == 0 then 1 else (pos + n - 1) / g.Bpc() + 1
  }

  lemma ClustersForIs(g: Geometry, pos: nat, n: nat, k: nat)
    requires g.Valid() && n > 0 && Byte(g.Bpc(), k, 0) < pos + n <= Byte(g.Bpc(), k + 1, 0)
    ensures ClustersFor(g, pos, n) == k + 1
  {
    QuotientIs(pos + n - 1, g.Bpc(), k);
  }

  lemma QuotientIs(a: nat, n: nat, q: nat)
    requires n > 0 && q * n <= a < (q + 1) * n
    ensures a / n == q
  {
    DivMod(a, n);
    if a / n < q {
      MulLe(a / n + 1, q, n);
      MulSucc(a / n, n);
    } else if a / n > q {
      MulLe(q + 1, a / n, n);
    }
  }

  lemma QuotientAtLeast(a: nat, n: nat, k: nat)
    requires n > 0 && k * n <= a
    ensures k <= a / n
  {
    DivMod(a, n);
    if a / n < k {
      MulLe(a / n + 1, k, n);
      MulSucc(a / n, n);
    }
  }

  /** While bytes remain after the k-th cluster the file needs another cluster. */
  lemma MoreClusters(g: Geometry, pos: nat, n: nat, k: nat)
    requires g.Valid() && n > 0 && Byte(g.Bpc(), k, 0) < pos + n
    ensures k < ClustersFor(g, pos, n)
  {
    QuotientAtLeast(pos + n - 1, g.Bpc(), k);
  }

  /** kernel/fs/fat32.cpp:373-407 */
  method WriteBytes(fs: Fat32, node: FatNode, start: nat, ghost first: nat, shift: nat, buffer: seq<byte>,
                    ghost room: int) returns (written: nat)
    requires NodeOk(fs, node) && first < |node.chain| && start == node.chain[first]
    requires fs.g.Valid() && shift < fs.g.Bpc() && buffer != [] && Room(fs.g, fs.vol.table, room)
    requires ClustersFor(fs.g, Byte(fs.g.Bpc(), first, shift), |buffer|) <= |node.chain| + room
    modifies fs, node`chain
    ensures NodeOk(fs, node) && Kept(fs.g, old(fs.disk), fs.disk)
    ensures 0 < written <= |buffer| && (written < |buffer| ==> NoFree(fs.vol.table))
    ensures Writing(fs.g, old(fs.vol), old(node.chain), 0, Byte(fs.g.Bpc(), first, shift), buffer, fs.vol, node.chain,
                    written)
    ensures |node.chain| == Max(|old(node.chain)|, ClustersFor(fs.g, Byte(fs.g.Bpc(), first, shift), written))
  {
    hide *;
    ghost var d0, v0, cs0, g := fs.disk, fs.vol, node.chain, fs.g;
    ghost var pos := Byte(g.Bpc(), first, shift);
    NodeFacts(fs, node);
    KeptSelf(g, d0);
    WritingStarts(g, v0, cs0, first, shift, buffer);
    var curr: nat, o: nat := start, shift;
    ghost var k: nat := first;
    MaxIs(|cs0|, k + 1);
    written := 0;
    while written < |buffer|
      invariant NodeOk(fs, node) && Kept(g, d0, fs.disk) && written <= |buffer|
      invariant Writing(g, v0, cs0, 0, pos, buffer, fs.vol, node.chain, written)
      invariant written < |buffer| ==> k < |node.chain| && curr == node.chain[k] && o < g.Bpc()
                                       && pos + written == Byte(g.Bpc(), k, o)
      invariant |node.chain| == Max(|cs0|, k + 1) && Room(g, fs.vol.table, room - (|node.chain| - |cs0|))
      invariant written == |buffer| ==> ClustersFor(g, pos, written) == k + 1
    {
      ghost var d := fs.disk;
      var n := WriteTurn(fs, node, v0, cs0, pos, buffer, written, k, curr, o);
      KeptTransitive(g, d0, d, fs.disk);
      written := written + n;
      ClustersForIs(g, pos, written, k);
      o := 0;
      if written < |buffer| {
        ghost var d, v, cs := fs.disk, fs.vol, node.chain;
        StartIsLess(g, pos, |buffer|, written, k);
        MoreClusters(g, pos, |buffer|, k + 1);
        var next := Advance(fs, node, k, curr, room - (|cs| - |cs0|));
        KeptTransitive(g, d0, d, fs.disk);
        WritingLengthened(g, v0, cs0, pos, buffer, v, cs, written, fs.vol, node.chain);
        if next == 0 { break; }
        MaxIs(|cs0|, k + 1);
        MaxIs(|cs0|, k + 2);
        curr := next;
        k := k + 1;
      }
    }
  }

  lemma MaxIs(a: int, b: int)
    ensures Max(a, b) == if a >= b then a else b
  {
  }

  lemma StartIsLess(g: Geometry, pos: nat, size: nat, written: nat, k: nat)
    requires pos + written == Byte(g.Bpc(), k + 1, 0) && written < size
    ensures Byte(g.Bpc(), k + 1, 0) < pos + size
  {
  }

  /** A write that starts from the volume the earlier phases left. */
  lemma WritingFrom(g: Geometry, v0: Volume, cs0: seq<nat>, dir: nat, v1: Volume, cs1: seq<nat>, pos: nat,
                    buffer: seq<byte>, v: Volume, cs: seq<nat>, n: nat)
    requires Lengthened(g, v0, v1, cs0, cs1, dir) && Writing(g, v1, cs1, 0, pos, buffer, v, cs, n)
    ensures Writing(g, v0, cs0, dir, pos, buffer, v, cs, n)
  {
    hide Contents, Splice;
    ExtendedWeaker(g, v1, v, cs1, cs, dir);
    ExtendedTransitive(g, v0, v1, v, cs0, cs1, cs, dir);
    ZeroClustersSum(g, |cs1| - |cs0|, |cs| - |cs1|);
    Associative(Contents(v0, cs0), ZeroClusters(g, |cs1| - |cs0|), ZeroClusters(g, |cs| - |cs1|));
  }

  /** Recording the new size touches only the directory cluster. */
  lemma WritingSized(g: Geometry, v0: Volume, cs0: seq<nat>, dir: nat, o: nat, pos: nat, buffer: seq<byte>, v: Volume,
                     cs: seq<nat>, n: nat, v': Volume, e: seq<byte>)
    requires Writing(g, v0, cs0, dir, pos, buffer, v, cs, n) && dir != 0 && EntryPlaced(g, v.table, dir, o, cs)
    requires |e| == ENTRY_SIZE && v' == WithEntry(v, dir, o, e)
    ensures Writing(g, v0, cs0, dir, pos, buffer, v', cs, n)
  {
    hide Splice, Contents, WroteSoFar;
    ExtendedWritten(g, v0, v, v', cs0, cs, dir, dir);
    ContentsSame(v, v', cs);
  }

  /** kernel/fs/fat32.cpp:409-424 */
  method RecordSize(fs: Fat32, node: FatNode, end: nat, ghost v0: Volume, ghost cs0: seq<nat>, ghost pos: nat,
                    ghost buffer: seq<byte>, ghost n: nat, ghost gotFirst: bool)
    requires NodeOk(fs, node) && Writing(fs.g, v0, cs0, node.dirCluster, pos, buffer, fs.vol, node.chain, n)
    requires EntryResult(v0, fs.vol, node.dirCluster, node.dirEntryOffset, gotFirst, node.firstCluster, false,
                         node.size)
    modifies fs, node`size
    ensures NodeOk(fs, node) && Kept(fs.g, old(fs.disk), fs.disk) && fs.vol.table == old(fs.vol).table
    ensures node.size == if end > old(node.size) then end else old(node.size)
    ensures Writing(fs.g, v0, cs0, node.dirCluster, pos, buffer, fs.vol, node.chain, n)
    ensures EntryResult(v0, fs.vol, node.dirCluster, node.dirEntryOffset, gotFirst, node.firstCluster,
                        node.size != old(node.size), node.size)
  {
    hide Kept, Fits, View, Writing, EntryResult, WithSize, Splice, EntryIn;
    KeptSelf(fs.g, fs.disk);
    if end > node.size {
      ghost var v, size := fs.vol, node.size;
      node.size := end;
      if node.dirCluster != 0 {
        StoreFileSize(fs, node.dirCluster, node.dirEntryOffset, end % U32);
        WritingSized(fs.g, v0, cs0, node.dirCluster, node.dirEntryOffset, pos, buffer, v, node.chain, n, fs.vol,
                     WithSize(EntryIn(v.data[node.dirCluster - 2], node.dirEntryOffset), end % U32));
        EntryGrew(v0, v, fs.vol, node.dirCluster, node.dirEntryOffset, gotFirst, node.firstCluster, size, end);
      } else {
        EntryGrew(v0, v, v, 0, node.dirEntryOffset, gotFirst, node.firstCluster, size, end);
      }
    }
  }

  /** Writing `buffer` at `offset`.  A count r > 0 comes with the first r bytes spliced into the contents at the
      write position, the chain lengthened by just the zeroed clusters needed for them; -1 and short counts only occur
      on a full volume, and even then the bytes the file had before are all still there. */
  method VnodeWrite(fs: Fat32, node: FatNode, offset: nat, buffer: seq<byte>) returns (r: int)
    requires NodeOk(fs, node) && |buffer| < 0x8000_0000 && offset + |buffer| < U32 * U32 && fs.g.Valid()
    requires Room(fs.g, fs.vol.table, ClustersFor(fs.g, Position(fs.g, offset), |buffer|) - |node.chain|)
    modifies fs, node`size, node`firstCluster, node`chain
    ensures NodeOk(fs, node) && Kept(fs.g, old(fs.disk), fs.disk)
    ensures -1 <= r <= |buffer| && (r < |buffer| ==> NoFree(fs.vol.table)) && (r == 0 ==> buffer == [])
    ensures if r <= 0 then Lengthened(fs.g, old(fs.vol), fs.vol, old(node.chain), node.chain, node.dirCluster)
            else Writing(fs.g, old(fs.vol), old(node.chain), node.dirCluster, Position(fs.g, offset), buffer, fs.vol,
                         node.chain, r)
    ensures if r >= 0 then |node.chain| == Max(|old(node.chain)|, ClustersFor(fs.g, Position(fs.g, offset), r))
            else |node.chain| <= Max(|old(node.chain)|, ClusterIndex(fs.g, offset))
    ensures node.size == if r > 0 && offset + r > old(node.size) then offset + r else old(node.size)
    ensures EntryResult(old(fs.vol), fs.vol, node.dirCluster, node.dirEntryOffset,
                        old(node.chain) == [] && node.chain != [], node.firstCluster, node.size != old(node.size),
                        node.size)
  {
    hide *;
    ghost var d0, v0, cs0 := fs.disk, fs.vol, node.chain;
    ghost var dir, o, pos, room := node.dirCluster, node.dirEntryOffset, Position(fs.g, offset),
        ClustersFor(fs.g, Position(fs.g, offset), |buffer|) - |node.chain|;
    ghost var idx := ClusterIndex(fs.g, offset);
    NodeFacts(fs, node);
    PositionIs(fs.g, offset);
    var ok := EnsureFirst(fs, node, room);
    FirstLength(fs.g, pos, |cs0|, |node.chain|, idx);
    if !ok { return -1; }
    if buffer == [] { return 0; }
    ghost var gotFirst := cs0 == [];
    ghost var d1, v1, cs1 := fs.disk, fs.vol, node.chain;
    NodeFacts(fs, node);
    IndexNeeded(fs.g, offset, |buffer|);
    var curr := ReachCluster(fs, node, ClusterIndex(fs.g, offset), room - (|cs1| - |cs0|));
    KeptTransitive(fs.g, d0, d1, fs.disk);
    LengthenedTransitive(fs.g, v0, v1, fs.vol, cs0, cs1, node.chain, dir);
    LengthenedExtended(fs.g, v1, fs.vol, cs1, node.chain);
    EntryCarried(fs.g, v0, v1, fs.vol, cs1, node.chain, dir, o, gotFirst, node.firstCluster, node.size);
    MaxIs(|cs0|, idx);
    if curr == 0 { return -1; }
    ghost var d2, v2, cs2 := fs.disk, fs.vol, node.chain;
    NodeFacts(fs, node);
    r := WriteBytes(fs, node, curr, ClusterIndex(fs.g, offset), ClusterShift(fs.g, offset), buffer,
                    room - (|cs2| - |cs0|));
    KeptTransitive(fs.g, d0, d2, fs.disk);
    IndexNeeded(fs.g, offset, r);
    MaxIs(|cs2|, ClustersFor(fs.g, pos, r));
    MaxIs(|cs0|, ClustersFor(fs.g, pos, r));
    WritingFrom(fs.g, v0, cs0, dir, v2, cs2, pos, buffer, fs.vol, node.chain, r);
    WritingExtended(fs.g, v2, cs2, 0, pos, buffer, fs.vol, node.chain, r);
    EntryCarried(fs.g, v0, v2, fs.vol, cs2, node.chain, dir, o, gotFirst, node.firstCluster, node.size);
    ghost var d3 := fs.disk;
    RecordSize(fs, node, offset + r, v0, cs0, pos, buffer, r, gotFirst);
    KeptTransitive(fs.g, d0, d3, fs.disk);
  }

  /** The cluster of the first byte written is among those needed. */
  lemma IndexNeeded(g: Geometry, offset: nat, n: nat)
    requires g.Valid() && n > 0
    ensures ClusterIndex(g, offset) < ClustersFor(g, Position(g, offset), n)
  {
    hide ClustersFor, ClusterIndex, ClusterShift;
    MoreClusters(g, Position(g, offset), n, ClusterIndex(g, offset));
  }

  lemma FirstLength(g: Geometry, pos: nat, before: nat, after: nat, idx: nat)
    requires g.Valid()
    ensures ClustersFor(g, pos, 0) == 1
    ensures after == before ==> after <= Max(before, idx)
    ensures after == (if before == 0 then 1 else before) ==> after == Max(before, 1)
  {
  }

  lemma PositionIs(g: Geometry, offset: nat)
    requires g.Valid()
    ensures Position(g, offset) == Byte(g.Bpc(), ClusterIndex(g, offset), ClusterShift(g, offset))
  {
  }

  lemma LengthenedExtended(g: Geometry, v: Volume, v': Volume, cs: seq<nat>, cs': seq<nat>)
    requires Lengthened(g, v, v', cs, cs', 0)
    ensures Extended(g, v, v', cs, cs', 0)
  {
  }

  lemma WritingExtended(g: Geometry, v: Volume, cs: seq<nat>, dir: nat, pos: nat, buffer: seq<byte>, v': Volume,
                        cs': seq<nat>, n: nat)
    requires Writing(g, v, cs, dir, pos, buffer, v', cs', n)
    ensures Extended(g, v, v', cs, cs', dir)
  {
  }
}
