/** Copying memory (kernel/lib/string.cpp:28-64): eight bytes at a time, then the rest. */
module Memory {
  import opened Bytes

  /** `d64[i] = s64[i]`: the whole word is loaded before any of it is stored. */
  method CopyWord(dst: array<byte>, d: nat, src: array<byte>, s: nat)
    requires d + 8 <= dst.Length && s + 8 <= src.Length
    modifies dst
    ensures dst[..] == Splice(old(dst[..]), d, old(src[s..s + 8]))
  {
    var w := src[s..s + 8];
    forall j | 0 <= j < 8 {
      dst[d + j] := w[j];
    }
  }

  /** Copying forward reads nothing it has already written. */
  predicate ForwardSafe(same: bool, d: nat, s: nat, n: nat) {
    !same || d <= s || s + n <= d
  }

  /** The first `a` bytes are copied, everything else is as before. */
  ghost predicate CopiedUp(now: seq<byte>, was: seq<byte>, d: nat, from: seq<byte>, a: nat) {
    a <= |from| && d + |from| <= |was| && now == Splice(was, d, from[..a])
  }

  lemma CopiedStep(now: seq<byte>, was: seq<byte>, d: nat, from: seq<byte>, a: nat, k: nat, after: seq<byte>)
    requires CopiedUp(now, was, d, from, a) && a + k <= |from| && d + a + k <= |now|
             && after == Splice(now, d + a, from[a..a + k])
    ensures CopiedUp(after, was, d, from, a + k)
  {
  }

  /** What is still to be read is unchanged. */
  lemma StillThere(was: seq<byte>, d: nat, s: nat, n: nat, a: nat, k: nat)
    requires d + n <= |was| && s + n <= |was| && a + k <= n && (d <= s || s + n <= d)
    ensures Splice(was, d, was[s..s + n][..a])[s + a..s + a + k] == was[s..s + n][a..a + k]
  {
    var now := Splice(was, d, was[s..s + n][..a]);
    var x, y := now[s + a..s + a + k], was[s..s + n][a..a + k];
    forall z | 0 <= z < k
      ensures x[z] == y[z]
    {
      assert now[s + a + z] == was[s + a + z];
    }
  }

  method Memcpy(dst: array<byte>, d: nat, src: array<byte>, s: nat, count: nat)
    requires d + count <= dst.Length && s + count <= src.Length && ForwardSafe(dst == src, d, s, count)
    modifies dst
    ensures dst[..] == Splice(old(dst[..]), d, old(src[s..s + count]))
  {
    hide Splice, CopiedUp;
    ghost var was, from := dst[..], src[s..s + count];
    var qwords := count / 8;
    NothingCopied(was, d, from);
    CopyWords(dst, d, src, s, qwords, was, from);
    CopyBytes(dst, d, src, s, qwords * 8, count, was, from);
    AllCopied(dst[..], was, d, from);
  }

  /** What the loops of the copy rely on: `from` is still where it is read from, as far as it is not copied yet. */
  ghost predicate Readable(dst: array<byte>, d: nat, src: array<byte>, s: nat, was: seq<byte>, from: seq<byte>)
    reads src
  {
    && s + |from| <= src.Length && |was| == dst.Length && ForwardSafe(dst == src, d, s, |from|)
    && if dst == src then from == was[s..s + |from|] else src[s..s + |from|] == from
  }

  /** The loop over words. */
  method CopyWords(dst: array<byte>, d: nat, src: array<byte>, s: nat, qwords: nat, ghost was: seq<byte>,
                   ghost from: seq<byte>)
    requires 8 * qwords <= |from| && Readable(dst, d, src, s, was, from) && CopiedUp(dst[..], was, d, from, 0)
    modifies dst
    ensures Readable(dst, d, src, s, was, from) && CopiedUp(dst[..], was, d, from, 8 * qwords)
  {
    hide Splice, CopiedUp;
    var i: nat := 0;
    while i < qwords
      invariant i <= qwords && CopiedUp(dst[..], was, d, from, 8 * i) && Readable(dst, d, src, s, was, from)
    {
      ghost var now := dst[..];
      ReadNext(now, was, d, src[..], s, from, 8 * i, 8, dst == src);
      CopyWord(dst, d + 8 * i, src, s + 8 * i);
      CopiedStep(now, was, d, from, 8 * i, 8, dst[..]);
      i := i + 1;
    }
  }

  /** The loop over the bytes that are left. */
  method CopyBytes(dst: array<byte>, d: nat, src: array<byte>, s: nat, start: nat, count: nat, ghost was: seq<byte>,
                   ghost from: seq<byte>)
    requires start <= count == |from| && Readable(dst, d, src, s, was, from) && CopiedUp(dst[..], was, d, from, start)
    modifies dst
    ensures CopiedUp(dst[..], was, d, from, count)
  {
    hide Splice, CopiedUp;
    var i := start;
    while i < count
      invariant start <= i <= count && CopiedUp(dst[..], was, d, from, i) && Readable(dst, d, src, s, was, from)
    {
      ghost var now := dst[..];
      ReadNext(now, was, d, src[..], s, from, i, 1, dst == src);
      dst[d + i] := src[s + i];
      OneStored(now, d + i, from[i..i + 1], dst[..]);
      CopiedStep(now, was, d, from, i, 1, dst[..]);
      i := i + 1;
    }
  }

  lemma AllCopied(now: seq<byte>, was: seq<byte>, d: nat, from: seq<byte>)
    requires CopiedUp(now, was, d, from, |from|)
    ensures d + |from| <= |was| && now == Splice(was, d, from)
  {
    assert from[..|from|] == from;
  }

  lemma NothingCopied(was: seq<byte>, d: nat, from: seq<byte>)
    requires d + |from| <= |was|
    ensures CopiedUp(was, was, d, from, 0)
  {
  }

  lemma OneStored(now: seq<byte>, at: nat, x: seq<byte>, after: seq<byte>)
    requires at < |now| && |x| == 1 && after == now[at := x[0]]
    ensures after == Splice(now, at, x)
  {
  }

  lemma ReadNext(now: seq<byte>, was: seq<byte>, d: nat, src: seq<byte>, s: nat, from: seq<byte>, a: nat, k: nat,
                 same: bool)
    requires CopiedUp(now, was, d, from, a) && a + k <= |from| && s + |from| <= |src|
    requires if same then src == now && from == was[s..s + |from|] && (d <= s || s + |from| <= d)
             else src[s..s + |from|] == from
    ensures src[s + a..s + a + k] == from[a..a + k]
    ensures d + a + k <= |now| == |was|
  {
    if same {
      assert from[..a] == was[s..s + |from|][..a];
      StillThere(was, d, s, |from|, a, k);
    } else {
      SliceOfSlice(src, s, |from|, a, k);
    }
  }

  /** For every overlap and length the destination ends up with the bytes the source had. */
  method Memmove(m: array<byte>, d: nat, s: nat, count: nat)
    requires d + count <= m.Length && s + count <= m.Length
    modifies m
    ensures m[..] == Splice(old(m[..]), d, old(m[s..s + count]))
  {
    hide Splice;
    ghost var was, from := m[..], m[s..s + count];
    NothingMoved(was, d, from);
    if d < s {
      Memcpy(m, d, m, s, count);
    } else if d > s {
      var i: nat := count;
      while i > 0
        invariant i <= count && CopiedDown(m[..], was, d, from, i)
      {
        ReadBack(m[..], was, d, s, from, i);
        m[d + i - 1] := m[s + i - 1];
        i := i - 1;
      }
      AllMoved(m[..], was, d, from);
    } else {
      SameBytes(was, d, count);
    }
  }

  /** The bytes from `i` on are copied, everything else is as before. */
  ghost predicate CopiedDown(now: seq<byte>, was: seq<byte>, d: nat, from: seq<byte>, i: nat) {
    i <= |from| && d + |from| <= |was| && |now| == |was|
    && forall z :: 0 <= z < |was| ==> now[z] == if d + i <= z < d + |from| then from[z - d] else was[z]
  }

  lemma NothingMoved(was: seq<byte>, d: nat, from: seq<byte>)
    requires d + |from| <= |was|
    ensures CopiedDown(was, was, d, from, |from|)
  {
  }

  lemma ReadBack(now: seq<byte>, was: seq<byte>, d: nat, s: nat, from: seq<byte>, i: nat)
    requires CopiedDown(now, was, d, from, i) && 0 < i && s < d && s + |from| <= |was| && from == was[s..s + |from|]
    ensures now[s + i - 1] == from[i - 1] && CopiedDown(now[d + i - 1 := from[i - 1]], was, d, from, i - 1)
  {
  }

  lemma AllMoved(now: seq<byte>, was: seq<byte>, d: nat, from: seq<byte>)
    requires CopiedDown(now, was, d, from, 0)
    ensures now == Splice(was, d, from)
  {
  }

  lemma SameBytes(was: seq<byte>, d: nat, n: nat)
    requires d + n <= |was|
    ensures Splice(was, d, was[d..d + n]) == was
  {
  }
}
