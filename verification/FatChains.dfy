/** Cluster chains in a table of links: following, freeing and allocating, as functions on the table. */
module FatChains {
  import opened Bytes
  import opened FatTable

  /** fat32_get_next_cluster on a table: outside the entries the answer is end-of-chain. */
  function Next(t: seq<nat>, c: nat): nat {
    if 2 <= c < |t| then t[c] else EOC
  }

  /** The cluster reached from `c` after `k` links. */
  function Follow(t: seq<nat>, c: nat, k: nat): nat {
    if k == 0 then c else Next(t, Follow(t, c, k - 1))
  }

  /** Every link is free or end-of-chain, or names a data cluster. */
  ghost predicate LinksInRange(g: Geometry, t: seq<nat>) {
    forall c :: 0 <= c < |t| ==> LinkInRange(g, t[c])
  }

  predicate LinkInRange(g: Geometry, c: nat) {
    c < 2 || c >= EOC || c < g.End()
  }

  /** Every free entry names a cluster of the data area. */
  ghost predicate FreeInData(g: Geometry, t: seq<nat>) {
    forall c :: g.End() <= c < |t| ==> t[c] != FREE
  }

  /** The free clusters of the data area. */
  function FreeData(g: Geometry, t: seq<nat>): set<nat> {
    set c | 2 <= c < g.End() && c < |t| && t[c] == FREE
  }

  /** The allocator stays in the data area: it has a free cluster, or no entry is free at all. */
  ghost predicate Allocatable(g: Geometry, t: seq<nat>) {
    FreeData(g, t) != {} || forall i :: 2 <= i < |t| ==> t[i] != FREE
  }

  /** The allocator stays in the data area `n` times in a row. */
  ghost predicate Room(g: Geometry, t: seq<nat>, n: int) {
    FreeInData(g, t) || n <= |FreeData(g, t)|
  }

  ghost predicate Reachable(t: seq<nat>, start: nat, c: nat) {
    2 <= c < |t| && exists k: nat :: Follow(t, start, k) == c
  }

  /** The first `k` clusters met from `start`. */
  ghost function Met(t: seq<nat>, start: nat, k: nat): set<nat> {
    set j: nat | 0 <= j < k :: Follow(t, start, j)
  }

  /** `t'` is `t` with the clusters met in the first `k` steps from `start` marked free. */
  ghost predicate FreedTo(t: seq<nat>, t': seq<nat>, start: nat, k: nat) {
    && |t'| == |t|
    && forall c :: 0 <= c < |t| ==> t'[c] == if c >= 2 && c in Met(t, start, k) then FREE else t[c]
  }

  /** `t'` is `t` with exactly the clusters reachable from `start` marked free. */
  ghost predicate FreedAll(t: seq<nat>, t': seq<nat>, start: nat) {
    && |t'| == |t|
    && forall c :: 0 <= c < |t| ==> t'[c] == if Reachable(t, start, c) then FREE else t[c]
  }

  lemma {:induction false} StopsForGood(t: seq<nat>, start: nat, k: nat, m: nat)
    requires k <= m && |t| <= EOC
    requires Follow(t, start, k) < 2 || Follow(t, start, k) >= |t|
    ensures m == k || Follow(t, start, m) == EOC
  {
    if m > k {
      StopsForGood(t, start, k, m - 1);
    }
  }

  lemma {:induction false} LoopsForGood(t: seq<nat>, start: nat, j: nat, k: nat, m: nat)
    requires j < k && Follow(t, start, k) == Follow(t, start, j)
    ensures Follow(t, start, m) in Met(t, start, k)
  {
    if m < k {
      assert Follow(t, start, m) in Met(t, start, k);
    } else if m == k {
      assert Follow(t, start, j) in Met(t, start, k);
    } else {
      LoopsForGood(t, start, j, k, m - 1);
      var i: nat :| i < k && Follow(t, start, i) == Follow(t, start, m - 1);
      assert Follow(t, start, m) == Follow(t, start, i + 1);
      if i + 1 == k {
        assert Follow(t, start, j) in Met(t, start, k);
      }
    }
  }

  lemma FreedNone(t: seq<nat>, start: nat)
    ensures FreedTo(t, t, start, 0)
  {
  }

  /** One turn of the freeing loop: cluster `curr` is the k-th met, possibly for the second time. */
  lemma FreeStep(t: seq<nat>, now: seq<nat>, start: nat, k: nat)
    requires FreedTo(t, now, start, k)
    requires 2 <= Follow(t, start, k) < |t|
    ensures var curr := Follow(t, start, k);
            if curr in Met(t, start, k) then now[curr] == FREE && now[curr := FREE] == now
            else now[curr] == Follow(t, start, k + 1) && FreedTo(t, now[curr := FREE], start, k + 1)
  {
    var curr := Follow(t, start, k);
    forall c
      ensures c in Met(t, start, k + 1) <==> c in Met(t, start, k) || c == curr
    {
      if c in Met(t, start, k + 1) {
        var j: nat :| j < k + 1 && Follow(t, start, j) == c;
      }
    }
  }

  /** Freeing stops either at a link that leaves the table or on meeting a cluster twice;
      in both cases every reachable cluster has been met. */
  lemma FreedToAll(t: seq<nat>, t': seq<nat>, start: nat, k: nat)
    requires |t| <= EOC && FreedTo(t, t', start, k)
    requires Follow(t, start, k) < 2 || Follow(t, start, k) >= |t| || Follow(t, start, k) in Met(t, start, k)
    ensures FreedAll(t, t', start)
  {
    forall c | 0 <= c < |t|
      ensures t'[c] == if Reachable(t, start, c) then FREE else t[c]
    {
      if Reachable(t, start, c) {
        var m: nat :| Follow(t, start, m) == c;
        if Follow(t, start, k) in Met(t, start, k) {
          var j: nat :| j < k && Follow(t, start, j) == Follow(t, start, k);
          LoopsForGood(t, start, j, k, m);
        } else if m >= k {
          StopsForGood(t, start, k, m);
        }
        assert c in Met(t, start, k);
      }
    }
  }

  function NonFree(t: seq<nat>): nat {
    if t == [] then 0 else NonFree(t[..|t| - 1]) + if t[|t| - 1] != FREE then 1 else 0
  }

  lemma {:induction false} NonFreeUpdate(t: seq<nat>, c: nat, v: nat)
    requires c < |t|
    ensures NonFree(t[c := v]) == NonFree(t) - (if t[c] != FREE then 1 else 0) + (if v != FREE then 1 else 0)
  {
    var n := |t| - 1;
    if c == n {
      assert t[c := v][..n] == t[..n];
    } else {
      assert t[c := v][..n] == t[..n][c := v];
      NonFreeUpdate(t[..n], c, v);
    }
  }

  /** `c` is what fat32_allocate_cluster picks: the first free entry from 2 on, or 0 when there is none. */
  ghost predicate IsLowestFree(t: seq<nat>, c: nat) {
    if c == 0 then forall i :: 2 <= i < |t| ==> t[i] != FREE
    else 2 <= c < |t| && t[c] == FREE && forall i :: 2 <= i < c ==> t[i] != FREE
  }

  /** What the allocator picks lies in the data area exactly when `Allocatable` says so. */
  lemma AllocatableIff(g: Geometry, t: seq<nat>, c: nat)
    requires IsLowestFree(t, c) && g.End() <= |t|
    ensures c < g.End() <==> Allocatable(g, t)
  {
    if c != 0 && c < g.End() {
      assert c in FreeData(g, t);
    }
    if c != 0 && FreeData(g, t) != {} {
      var i :| i in FreeData(g, t);
      assert c <= i;
    }
  }

  lemma RoomAllocates(g: Geometry, t: seq<nat>, n: int)
    requires Room(g, t, n) && n >= 1
    ensures Allocatable(g, t)
  {
    if FreeInData(g, t) && FreeData(g, t) == {} {
      forall i | 2 <= i < |t|
        ensures t[i] != FREE
      {
        assert i !in FreeData(g, t);
      }
    }
  }

  /** Taking a cluster of the data area leaves room for one less. */
  lemma RoomTaken(g: Geometry, t: seq<nat>, prev: nat, c: nat, n: int)
    requires Room(g, t, n) && 2 <= c < g.End() <= |t| && t[c] == FREE && prev < |t| && (prev >= 2 ==> t[prev] != FREE)
    ensures var u := t[c := EOC]; Room(g, if prev >= 2 then u[prev := c] else u, n - 1)
  {
    var u := t[c := EOC];
    var t' := if prev >= 2 then u[prev := c] else u;
    assert FreeData(g, t') == FreeData(g, t) - {c};
    assert c in FreeData(g, t);
  }

  /** The volume after cluster `c` was taken and appended to the chain that ends in `prev` (if any). */
  function Taken(g: Geometry, v: Volume, prev: nat, c: nat): Volume
    requires 2 <= c < g.End() <= |v.table| && |v.data| == g.clusters && prev < |v.table|
  {
    var t := v.table[c := EOC];
    Volume(if prev >= 2 then t[prev := c] else t, v.data[c - 2 := Zeros(g.Bpc())])
  }

  /** `cs` is a complete chain of data clusters: linked one to the next, the last one marked end-of-chain. */
  ghost predicate IsChain(g: Geometry, t: seq<nat>, cs: seq<nat>) {
    && cs != []
    && (forall i :: 0 <= i < |cs| ==> 2 <= cs[i] < g.End() && cs[i] < |t|)
    && (forall i :: 0 <= i < |cs| - 1 ==> t[cs[i]] == cs[i + 1])
    && t[cs[|cs| - 1]] >= EOC
  }

  lemma {:induction false} ChainFollow(g: Geometry, t: seq<nat>, cs: seq<nat>, k: nat)
    requires IsChain(g, t, cs) && |t| <= EOC && g.End() <= EOC
    ensures if k < |cs| then Follow(t, cs[0], k) == cs[k] else Follow(t, cs[0], k) >= EOC
  {
    if k > 0 {
      ChainFollow(g, t, cs, k - 1);
    }
  }

  /** A complete chain never meets a cluster twice. */
  lemma {:induction false} ChainDistinct(g: Geometry, t: seq<nat>, cs: seq<nat>, i: nat, j: nat)
    requires IsChain(g, t, cs) && g.End() <= EOC && i < j < |cs|
    ensures cs[i] != cs[j]
    decreases |cs| - j
  {
    if cs[i] == cs[j] {
      assert t[cs[i]] == cs[i + 1] < EOC;
      ChainDistinct(g, t, cs, i + 1, j + 1);
    }
  }

  /** What is reachable from the head of a complete chain is the chain. */
  lemma ChainReachable(g: Geometry, t: seq<nat>, cs: seq<nat>, c: nat)
    requires IsChain(g, t, cs) && |t| <= EOC && g.End() <= EOC
    ensures Reachable(t, cs[0], c) <==> c in cs
  {
    if c in cs {
      var k :| 0 <= k < |cs| && cs[k] == c;
      ChainFollow(g, t, cs, k);
    }
    if Reachable(t, cs[0], c) {
      var k: nat :| Follow(t, cs[0], k) == c;
      ChainFollow(g, t, cs, k);
    }
  }

  /** Only the last link of a chain is an end mark. */
  lemma LastLink(g: Geometry, t: seq<nat>, cs: seq<nat>, k: nat)
    requires IsChain(g, t, cs) && g.End() <= EOC && k < |cs|
    ensures if k == |cs| - 1 then t[cs[k]] >= EOC else t[cs[k]] == cs[k + 1] < EOC
  {
  }

  /** Chains that share a cluster have the same tail from there on. */
  lemma {:induction false} ChainsMerge(g: Geometry, t: seq<nat>, a: seq<nat>, b: seq<nat>, i: nat, j: nat)
    requires IsChain(g, t, a) && IsChain(g, t, b) && g.End() <= EOC
    requires i < |a| && j < |b| && a[i] == b[j]
    ensures a[i..] == b[j..]
    decreases |a| - i
  {
    LastLink(g, t, a, i);
    LastLink(g, t, b, j);
    if i < |a| - 1 {
      ChainsMerge(g, t, a, b, i + 1, j + 1);
      assert a[i..] == [a[i]] + a[i + 1..] && b[j..] == [b[j]] + b[j + 1..];
    }
  }
}
