/** The bytes of a file: the clusters of its chain, one after the other. */
module FatContents {
  import opened Bytes
  import opened FatTable
  import opened FatChains

  ghost predicate InData(v: Volume, cs: seq<nat>) {
    forall i :: 0 <= i < |cs| ==> 2 <= cs[i] < |v.data| + 2
  }

  function Contents(v: Volume, cs: seq<nat>): seq<byte>
    requires InData(v, cs)
  {
    if cs == [] then [] else v.data[cs[0] - 2] + Contents(v, cs[1..])
  }

  lemma {:induction false} ContentsLength(g: Geometry, v: Volume, cs: seq<nat>)
    requires Shaped(g, v) && InData(v, cs)
    ensures |Contents(v, cs)| == |cs| * g.Bpc()
  {
    if cs != [] {
      ContentsLength(g, v, cs[1..]);
      MulSucc(|cs| - 1, g.Bpc());
    }
  }

  lemma InDataConcat(v: Volume, a: seq<nat>, b: seq<nat>)
    requires InData(v, a) && InData(v, b)
    ensures InData(v, a + b) && (a != [] ==> 2 <= a[0] < |v.data| + 2 && InData(v, a[1..]))
  {
  }

  lemma Associative<T>(a: seq<T>, b: seq<T>, c: seq<T>)
    ensures a + (b + c) == (a + b) + c
  {
  }

  lemma {:induction false} ContentsConcat(v: Volume, a: seq<nat>, b: seq<nat>)
    requires InData(v, a) && InData(v, b)
    ensures InData(v, a + b) && Contents(v, a + b) == Contents(v, a) + Contents(v, b)
  {
    hide InData;
    InDataConcat(v, a, b);
    if a == [] {
      assert a + b == b;
    } else {
      ContentsConcat(v, a[1..], b);
      assert (a + b)[0] == a[0] && (a + b)[1..] == a[1..] + b;
      Associative(v.data[a[0] - 2], Contents(v, a[1..]), Contents(v, b));
    }
  }

  lemma {:induction false} ContentsSame(v: Volume, v': Volume, cs: seq<nat>)
    requires InData(v, cs) && |v'.data| == |v.data|
    requires forall i :: 0 <= i < |cs| ==> v'.data[cs[i] - 2] == v.data[cs[i] - 2]
    ensures Contents(v', cs) == Contents(v, cs)
  {
    if cs != [] {
      assert v'.data[cs[0] - 2] == v.data[cs[0] - 2];
      forall i | 0 <= i < |cs[1..]|
        ensures v'.data[cs[1..][i] - 2] == v.data[cs[1..][i] - 2]
      {
        assert cs[1..][i] == cs[i + 1];
      }
      ContentsSame(v, v', cs[1..]);
    }
  }

  lemma ContentsFirst(v: Volume, cs: seq<nat>)
    requires InData(v, cs) && cs != []
    ensures 2 <= cs[0] < |v.data| + 2 && InData(v, cs[1..])
            && Contents(v, cs) == v.data[cs[0] - 2] + Contents(v, cs[1..])
  {
  }

  /** The contents around the k-th cluster. */
  lemma ContentsAt(g: Geometry, v: Volume, cs: seq<nat>, k: nat)
    requires Shaped(g, v) && InData(v, cs) && k < |cs|
    ensures |Contents(v, cs[..k])| == k * g.Bpc()
    ensures |Contents(v, cs)| == |cs| * g.Bpc() && (k + 1) * g.Bpc() <= |cs| * g.Bpc()
    ensures Contents(v, cs) == Contents(v, cs[..k]) + v.data[cs[k] - 2] + Contents(v, cs[k + 1..])
  {
    hide Contents;
    ContentsLength(g, v, cs);
    ContentsLength(g, v, cs[..k]);
    ContentsConcat(v, cs[..k], cs[k..]);
    ContentsFirst(v, cs[k..]);
    assert cs[..k] + cs[k..] == cs;
    assert cs[k..][1..] == cs[k + 1..];
    Associative(Contents(v, cs[..k]), v.data[cs[k] - 2], Contents(v, cs[k + 1..]));
    MulLe(k + 1, |cs|, g.Bpc());
  }

  lemma {:induction false} SpliceCluster(g: Geometry, v: Volume, v': Volume, cs: seq<nat>, k: nat, o: nat, x: seq<byte>)
    requires InData(v, cs) && k < |cs| && o + |x| <= g.Bpc()
    requires forall i :: 0 <= i < |v.data| ==> |v.data[i]| == g.Bpc()
    requires v'.data == v.data[cs[k] - 2 := Splice(v.data[cs[k] - 2], o, x)]
    requires forall i :: 0 <= i < |cs| && i != k ==> cs[i] != cs[k]
    ensures k * g.Bpc() + o + |x| <= |Contents(v, cs)|
    ensures Contents(v', cs) == Splice(Contents(v, cs), k * g.Bpc() + o, x)
  {
    hide Contents, Splice;
    ContentsFirst(v, cs);
    ContentsFirst(v', cs);
    var head, rest := v.data[cs[0] - 2], Contents(v, cs[1..]);
    if k == 0 {
      ContentsSame(v, v', cs[1..]);
      SpliceLeft(head, rest, o, x);
    } else {
      SpliceCluster(g, v, v', cs[1..], k - 1, o, x);
      MulSucc(k - 1, g.Bpc());
      assert v'.data[cs[0] - 2] == head;
      SpliceRight(head, rest, (k - 1) * g.Bpc() + o, x);
    }
  }

  /** Rewriting part of one cluster of a chain is rewriting that part of the contents. */
  lemma ContentsSplice(g: Geometry, v: Volume, v': Volume, cs: seq<nat>, k: nat, o: nat, x: seq<byte>)
    requires Shaped(g, v) && IsChain(g, v.table, cs) && k < |cs| && o + |x| <= g.Bpc()
    requires v' == v.(data := v.data[cs[k] - 2 := Splice(v.data[cs[k] - 2], o, x)])
    ensures InData(v, cs) && k * g.Bpc() + o + |x| <= |Contents(v, cs)|
    ensures Contents(v', cs) == Splice(Contents(v, cs), k * g.Bpc() + o, x)
  {
    forall i | 0 <= i < |cs| && i != k
      ensures cs[i] != cs[k]
    {
      if i < k { ChainDistinct(g, v.table, cs, i, k); } else { ChainDistinct(g, v.table, cs, k, i); }
    }
    SpliceCluster(g, v, v', cs, k, o, x);
  }

  lemma SpliceLeft<T>(a: seq<T>, b: seq<T>, o: nat, x: seq<T>)
    requires o + |x| <= |a|
    ensures Splice(a + b, o, x) == Splice(a, o, x) + b
  {
  }

  lemma SpliceRight<T>(a: seq<T>, b: seq<T>, o: nat, x: seq<T>)
    requires o + |x| <= |b|
    ensures Splice(a + b, |a| + o, x) == a + Splice(b, o, x)
  {
  }

  lemma SpliceTwice<T>(s: seq<T>, o: nat, x: seq<T>, y: seq<T>)
    requires o + |x| + |y| <= |s|
    ensures Splice(Splice(s, o, x), o + |x|, y) == Splice(s, o, x + y)
  {
  }

  lemma SpliceGrow<T>(s: seq<T>, o: nat, x: seq<T>, z: seq<T>)
    requires o + |x| <= |s|
    ensures Splice(s, o, x) + z == Splice(s + z, o, x)
  {
  }

  /** From `v` to `v'` the chain `cs` grew to `cs'` by zeroed clusters that were free, and no other
      link and no other cluster changed. */
  ghost predicate Grown(g: Geometry, v: Volume, v': Volume, cs: seq<nat>, cs': seq<nat>) {
    && Shaped(g, v) && Shaped(g, v')
    && cs <= cs' && IsChain(g, v'.table, cs')
    && (forall i :: |cs| <= i < |cs'| ==> v.table[cs'[i]] == FREE && v'.data[cs'[i] - 2] == Zeros(g.Bpc()))
    && (forall c :: 0 <= c < |v.table| && c !in cs' ==> v'.table[c] == v.table[c])
    && (forall c :: 2 <= c < g.End() && (c in cs || c !in cs') ==> v'.data[c - 2] == v.data[c - 2])
  }

  /** Appending the cluster the allocator took. */
  lemma TakenGrown(g: Geometry, v: Volume, cs: seq<nat>, c: nat)
    requires Shaped(g, v) && (cs == [] || IsChain(g, v.table, cs))
    requires 2 <= c < g.End() && v.table[c] == FREE
    ensures Grown(g, v, Taken(g, v, if cs == [] then 0 else cs[|cs| - 1], c), cs, cs + [c])
  {
    var v' := Taken(g, v, if cs == [] then 0 else cs[|cs| - 1], c);
    var cs' := cs + [c];
    forall i | 0 <= i < |cs|
      ensures cs[i] != c
    {
      assert i < |cs| - 1 ==> v.table[cs[i]] == cs[i + 1];
    }
    forall i | 0 <= i < |cs'| - 1
      ensures v'.table[cs'[i]] == cs'[i + 1]
    {
      if i < |cs| - 1 {
        ChainDistinct(g, v.table, cs, i, |cs| - 1);
      }
    }
  }

  /** The bytes of `n` freshly allocated clusters. */
  function ZeroClusters(g: Geometry, n: nat): (z: seq<byte>)
    ensures |z| == n * g.Bpc()
  {
    Zeros(n * g.Bpc())
  }

  lemma ZeroClustersSucc(g: Geometry, n: nat)
    ensures Zeros(g.Bpc()) + ZeroClusters(g, n) == ZeroClusters(g, n + 1) == ZeroClusters(g, n) + Zeros(g.Bpc())
  {
    MulSucc(n, g.Bpc());
  }

  lemma {:induction false} ZerosContents(g: Geometry, v: Volume, cs: seq<nat>)
    requires Shaped(g, v) && InData(v, cs)
    requires forall i :: 0 <= i < |cs| ==> v.data[cs[i] - 2] == Zeros(g.Bpc())
    ensures Contents(v, cs) == ZeroClusters(g, |cs|)
  {
    if cs != [] {
      ZerosContents(g, v, cs[1..]);
      ZeroClustersSucc(g, |cs| - 1);
      assert v.data[cs[0] - 2] == Zeros(g.Bpc());
    }
  }

  lemma GrownInData(g: Geometry, v: Volume, v': Volume, cs: seq<nat>, cs': seq<nat>)
    requires Grown(g, v, v', cs, cs')
    ensures |cs| <= |cs'| && InData(v, cs) && InData(v', cs) && InData(v', cs') && InData(v', cs'[|cs|..])
    ensures cs' == cs + cs'[|cs|..] && |cs'[|cs|..]| == |cs'| - |cs| && Shaped(g, v') && |v'.data| == |v.data|
    ensures forall i :: 0 <= i < |cs| ==> v'.data[cs[i] - 2] == v.data[cs[i] - 2]
    ensures forall i :: 0 <= i < |cs'[|cs|..]| ==> v'.data[cs'[|cs|..][i] - 2] == Zeros(g.Bpc())
  {
    hide Zeros;
    var added := cs'[|cs|..];
    forall i | 0 <= i < |cs|
      ensures cs[i] == cs'[i] && cs[i] in cs
    {
    }
    forall i | 0 <= i < |added|
      ensures added[i] == cs'[|cs| + i]
    {
    }
  }

  /** A grown chain holds the old contents followed by zeros. */
  lemma GrownContents(g: Geometry, v: Volume, v': Volume, cs: seq<nat>, cs': seq<nat>)
    requires Grown(g, v, v', cs, cs')
    ensures |cs| <= |cs'| && InData(v, cs) && InData(v', cs')
    ensures Contents(v', cs') == Contents(v, cs) + ZeroClusters(g, |cs'| - |cs|)
  {
    hide *;
    GrownInData(g, v, v', cs, cs');
    var added := cs'[|cs|..];
    ContentsConcat(v', cs, added);
    ContentsSame(v, v', cs);
    ZerosContents(g, v', added);
  }
}
