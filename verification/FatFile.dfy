/**
 Reading and writing files through cluster chains (kernel/fs/fat32.cpp:269-427).
 A file's contents are the clusters of its chain; reading returns a slice of
 them and writing splices into them, growing the chain by zeroed clusters.
*/
module FatFile {
  import opened Bytes
  import opened FatTable
  import opened FatChains
  import opened FatDriver
  import opened FatContents
  import opened FatDirent

  /** A VNode with its FatNodeData; `dirCluster == 0` when the node has no directory entry. */
  class FatNode {
    var size: nat
    var firstCluster: nat
    var dirCluster: nat
    var dirEntryOffset: nat
    var isDirectory: bool
    ghost var chain: seq<nat>

    constructor (size: nat, firstCluster: nat, dirCluster: nat, dirEntryOffset: nat, isDirectory: bool,
                 ghost chain: seq<nat>)
      ensures this.size == size && this.firstCluster == firstCluster && this.dirCluster == dirCluster
      ensures this.dirEntryOffset == dirEntryOffset && this.isDirectory == isDirectory && this.chain == chain
    {
      this.size, this.firstCluster, this.dirCluster := size, firstCluster, dirCluster;
      this.dirEntryOffset, this.isDirectory, this.chain := dirEntryOffset, isDirectory, chain;
    }
  }

  /** The chain a node owns: none, or a complete chain from its first cluster. */
  ghost predicate Owns(g: Geometry, t: seq<nat>, first: nat, cs: seq<nat>) {
    if cs == [] then first == 0 else IsChain(g, t, cs) && cs[0] == first
  }

  /** The node's directory entry lies in a used cluster outside the node's own chain. */
  ghost predicate EntryPlaced(g: Geometry, t: seq<nat>, dir: nat, o: nat, cs: seq<nat>) {
    dir != 0 ==> 2 <= dir < g.End() && dir < |t| && t[dir] != FREE && dir !in cs && o % ENTRY_SIZE == 0
                 && o + ENTRY_SIZE <= g.Bpc()
  }

  /** What reading a node needs. */
  ghost predicate NodeReadable(fs: Fat32, node: FatNode)
    reads fs, node
  {
    fs.Valid() && Owns(fs.g, fs.vol.table, node.firstCluster, node.chain)
  }

  ghost predicate NodeOk(fs: Fat32, node: FatNode)
    reads fs, node
  {
    NodeReadable(fs, node) && EntryPlaced(fs.g, fs.vol.table, node.dirCluster, node.dirEntryOffset, node.chain)
  }

  /** The place in a file of byte `o` of its k-th cluster. */
  function Byte(bpc: nat, k: nat, o: nat): nat { k * bpc + o }

  /** The byte position the driver works at: the cluster index is cut to 32 bits. */
  function Position(g: Geometry, offset: nat): nat
    requires g.Valid()
  {
    Byte(g.Bpc(), ClusterIndex(g, offset), ClusterShift(g, offset))
  }

  function ClusterIndex(g: Geometry, offset: nat): nat
    requires g.Valid()
  {
    (offset / g.Bpc()) % U32
  }

  function ClusterShift(g: Geometry, offset: nat): (o: nat)
    requires g.Valid()
    ensures o < g.Bpc()
  {
    offset % g.Bpc()
  }

  /** The driver works at the offset it was given exactly when that is below 2^32 clusters. */
  lemma PositionIsOffset(g: Geometry, offset: nat)
    requires g.Valid()
    ensures Position(g, offset) == offset <==> offset / g.Bpc() < U32
  {
    PositionCut(g.Bpc(), offset);
  }

  lemma PositionCut(n: nat, offset: nat)
    requires n > 0
    ensures (offset / n) % U32 * n + offset % n == offset <==> offset / n < U32
  {
    var q := offset / n;
    DivMod(offset, n);
    var low := q % U32;
    if q < U32 {
      assert low == q;
    } else {
      assert low + 1 <= q;
      MulLe(low + 1, q, n);
      MulSucc(low, n);
      assert low * n + offset % n < offset;
    }
  }

  /** How many bytes the driver sets out to read: a file is cut at its size, a directory is not. */
  function Wanted(isDirectory: bool, nodeSize: nat, offset: nat, size: nat): nat {
    if isDirectory then size
    else if offset >= nodeSize then 0
    else if offset + size > nodeSize then nodeSize - offset
    else size
  }

  /** A file is read up to its size, a directory as far as its clusters go. */
  lemma WantedIs(nodeSize: nat, offset: nat, size: nat)
    ensures Wanted(false, nodeSize, offset, size) == Max(0, Min(size, nodeSize - offset))
    ensures Wanted(true, nodeSize, offset, size) == size
  {
  }

  /** `curr` is the k-th cluster of the chain, or a value that ends it. */
  ghost predicate AtCluster(g: Geometry, cs: seq<nat>, k: nat, curr: nat) {
    if k < |cs| then curr == cs[k] && 2 <= curr < g.End() else curr < 2 || curr >= EOC
  }

  lemma AtNext(g: Geometry, t: seq<nat>, cs: seq<nat>, k: nat, curr: nat)
    requires cs == [] || IsChain(g, t, cs)
    requires AtCluster(g, cs, k, curr) && 2 <= curr < EOC
    ensures k < |cs| && curr == cs[k] && 2 <= curr < g.End() && AtCluster(g, cs, k + 1, Next(t, curr))
  {
  }

  lemma NodeFacts(fs: Fat32, node: FatNode)
    requires NodeOk(fs, node)
    ensures fs.Valid() && NodeReadable(fs, node)
    ensures EntryPlaced(fs.g, fs.vol.table, node.dirCluster, node.dirEntryOffset, node.chain)
    ensures fs.g.Valid() && Fits(fs.g, fs.disk)
    ensures Shaped(fs.g, fs.vol) && InData(fs.vol, node.chain)
    ensures AtCluster(fs.g, node.chain, 0, node.firstCluster)
    ensures node.chain == [] || IsChain(fs.g, fs.vol.table, node.chain)
    ensures node.chain != [] ==> 2 <= node.firstCluster == node.chain[0]
  {
  }

  lemma ReadableFacts(fs: Fat32, node: FatNode)
    requires NodeReadable(fs, node)
    ensures fs.Valid() && fs.g.Valid() && Fits(fs.g, fs.disk)
    ensures Shaped(fs.g, fs.vol) && InData(fs.vol, node.chain)
    ensures AtCluster(fs.g, node.chain, 0, node.firstCluster)
    ensures node.chain == [] || IsChain(fs.g, fs.vol.table, node.chain)
    ensures node.chain != [] ==> 2 <= node.firstCluster == node.chain[0]
  {
  }

  /** Part of the k-th cluster is part of the contents. */
  lemma ReadStep(g: Geometry, v: Volume, cs: seq<nat>, k: nat, o: nat, n: nat)
    requires Shaped(g, v) && InData(v, cs) && k < |cs| && o + n <= g.Bpc()
    ensures |v.data[cs[k] - 2]| == g.Bpc()
    ensures k * g.Bpc() + o + n <= |Contents(v, cs)|
    ensures v.data[cs[k] - 2][o..o + n] == Contents(v, cs)[k * g.Bpc() + o..k * g.Bpc() + o + n]
  {
    ContentsAt(g, v, cs, k);
    MulSucc(k, g.Bpc());
    var before, cluster := Contents(v, cs[..k]), v.data[cs[k] - 2];
    var all := Contents(v, cs);
    var a, b := cluster[o..o + n], all[k * g.Bpc() + o..k * g.Bpc() + o + n];
    forall z | 0 <= z < n
      ensures a[z] == b[z]
    {
      assert (before + cluster)[|before| + o + z] == cluster[o + z];
    }
  }

  /** The state of the copying loop: `buffer` holds the bytes of `all` from `pos` on, and the next
      byte wanted is at offset `o` of the k-th cluster. */
  ghost predicate ReadSoFar(all: seq<byte>, bpc: nat, pos: nat, k: nat, o: nat, want: nat, buffer: seq<byte>) {
    && o < bpc && |buffer| <= want
    && (|buffer| < want ==> pos + |buffer| == Byte(bpc, k, o))
    && (buffer != [] ==> pos + |buffer| <= |all| && buffer == all[pos..pos + |buffer|] && o == 0)
  }

  lemma ReadNone(g: Geometry, all: seq<byte>, offset: nat, want: nat)
    requires g.Valid()
    ensures ReadSoFar(all, g.Bpc(), Position(g, offset), ClusterIndex(g, offset), ClusterShift(g, offset), want, [])
  {
  }

  lemma ReadMore(all: seq<byte>, bpc: nat, pos: nat, k: nat, o: nat, want: nat, buffer: seq<byte>, n: nat)
    requires ReadSoFar(all, bpc, pos, k, o, want, buffer) && |buffer| < want
    requires n == Min(want - |buffer|, bpc - o) && Byte(bpc, k, o) + n <= |all|
    ensures ReadSoFar(all, bpc, pos, k + 1, 0, want, buffer + all[Byte(bpc, k, o)..Byte(bpc, k, o) + n])
  {
    MulSucc(k, bpc);
  }

  lemma ReadDone(g: Geometry, v: Volume, cs: seq<nat>, pos: nat, k: nat, curr: nat, o: nat, want: nat,
                 buffer: seq<byte>)
    requires Shaped(g, v) && InData(v, cs) && want > 0
    requires ReadSoFar(Contents(v, cs), g.Bpc(), pos, k, o, want, buffer)
    requires |buffer| == want || (AtCluster(g, cs, k, curr) && (curr < 2 || curr >= EOC))
    ensures buffer == Clip(Contents(v, cs), pos, want)
  {
    if |buffer| < want {
      ContentsLength(g, v, cs);
      MulLe(|cs|, k, g.Bpc());
    }
  }

  /** Follows `n` links from the first cluster; `ended` when the chain is over before that. */
  method SkipClusters(fs: Fat32, ghost cs: seq<nat>, first: nat, n: nat) returns (ended: bool, curr: nat)
    requires fs.Valid() && (cs == [] || IsChain(fs.g, fs.vol.table, cs)) && AtCluster(fs.g, cs, 0, first)
    ensures AtCluster(fs.g, cs, n, if ended then EOC else curr)
  {
    curr, ended := first, false;
    var c: nat := 0;
    while c < n
      invariant c <= n && AtCluster(fs.g, cs, c, curr)
    {
      if curr < 2 || curr >= EOC { return true, curr; }
      AtNext(fs.g, fs.vol.table, cs, c, curr);
      curr := fs.GetNextCluster(curr);
      c := c + 1;
    }
  }

  /** The body of the reading loop: loads a cluster, takes `n` bytes from `o` on, moves to the next cluster. */
  method ReadChunk(fs: Fat32, ghost cs: seq<nat>, ghost k: nat, curr: nat, o: nat, n: nat)
      returns (chunk: seq<byte>, next: nat)
    requires fs.Valid() && InData(fs.vol, cs) && (cs == [] || IsChain(fs.g, fs.vol.table, cs))
    requires AtCluster(fs.g, cs, k, curr) && 2 <= curr < EOC && o + n <= fs.g.Bpc()
    ensures k < |cs| && |chunk| == n && AtCluster(fs.g, cs, k + 1, next)
    ensures Byte(fs.g.Bpc(), k, o) + n <= |Contents(fs.vol, cs)|
    ensures chunk == Contents(fs.vol, cs)[Byte(fs.g.Bpc(), k, o)..Byte(fs.g.Bpc(), k, o) + n]
  {
    AtNext(fs.g, fs.vol.table, cs, k, curr);
    ReadStep(fs.g, fs.vol, cs, k, o, n);
    var clusterBuf := fs.ReadCluster(curr);
    chunk := clusterBuf[o..o + n];
    next := fs.GetNextCluster(curr);
  }

  method VnodeRead(fs: Fat32, node: FatNode, offset: nat, size: nat) returns (r: int, buffer: seq<byte>)
    requires NodeReadable(fs, node) && size < 0x8000_0000 && offset + size < U32 * U32
    ensures r == |buffer|
    ensures InData(fs.vol, node.chain)
    ensures buffer == Clip(Contents(fs.vol, node.chain), Position(fs.g, offset),
                           Wanted(node.isDirectory, node.size, offset, size))
  {
    hide NodeReadable, Fat32.Valid, Shaped, Fits, View, IsChain, Owns, InData, Contents, AtCluster, ReadSoFar;
    hide Position, Byte, ClusterIndex, ClusterShift, Geometry.Valid;
    ghost var vol, cs := fs.vol, node.chain;
    ReadableFacts(fs, node);
    if size == 0 || (!node.isDirectory && offset >= node.size) { return 0, []; }
    var want := if !node.isDirectory && offset + size > node.size then node.size - offset else size;
    assert want == Wanted(node.isDirectory, node.size, offset, size) > 0;
    ghost var pos, all := Position(fs.g, offset), Contents(vol, cs);
    ReadNone(fs.g, all, offset, want);
    var bpc := fs.g.Bpc();
    var clusterIdx := ClusterIndex(fs.g, offset);
    var clusterOffset: nat := ClusterShift(fs.g, offset);

    var ended, curr: nat := SkipClusters(fs, cs, node.firstCluster, clusterIdx);
    if ended {
      ReadDone(fs.g, vol, cs, pos, clusterIdx, EOC, clusterOffset, want, []);
      return 0, [];
    }
    ghost var k: nat := clusterIdx;
    buffer := [];
    while |buffer| < want && curr >= 2 && curr < EOC
      invariant AtCluster(fs.g, cs, k, curr) && ReadSoFar(all, bpc, pos, k, clusterOffset, want, buffer)
      invariant |buffer| <= want && 0 <= clusterOffset < bpc
      decreases |cs| - k
    {
      var available := bpc - clusterOffset;
      var toCopy := if want - |buffer| > available then available else want - |buffer|;
      var chunk, next := ReadChunk(fs, cs, k, curr, clusterOffset, toCopy);
      ReadMore(all, bpc, pos, k, clusterOffset, want, buffer, toCopy);
      buffer := buffer + chunk;
      clusterOffset := 0;
      curr := next;
      k := k + 1;
    }
    ReadDone(fs.g, vol, cs, pos, k, curr, clusterOffset, want, buffer);
    r := |buffer|;
  }
}
