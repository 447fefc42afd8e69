/** Bytes, little-endian fields and byte-string splicing, shared by every model. */
module Bytes {

  type byte = x: int | 0 <= x < 256

  datatype Option<T> = None | Some(value: T)

  const U16 := 0x1_0000
  const U32 := 0x1_0000_0000

  /** The 16-bit little-endian field at offset `o`. */
  function Le16(s: seq<byte>, o: nat): (r: int)
    requires o + 2 <= |s|
    ensures 0 <= r < U16
  {
    var low: int, high: int := s[o], s[o + 1];
    low + 0x100 * high
  }

  /** The 32-bit little-endian field at offset `o`. */
  function Le32(s: seq<byte>, o: nat): (r: int)
    requires o + 4 <= |s|
    ensures 0 <= r < U32
  {
    Le16(s, o) + U16 * Le16(s, o + 2)
  }

  function PutLe16(v: int): (s: seq<byte>)
    requires 0 <= v < U16
    ensures |s| == 2 && Le16(s, 0) == v
  {
    [v % 0x100, v / 0x100]
  }

  function PutLe32(v: int): (s: seq<byte>)
    requires 0 <= v < U32
    ensures |s| == 4 && Le32(s, 0) == v
  {
    var s := PutLe16(v % U16) + PutLe16(v / U16);
    assert s[..2] == PutLe16(v % U16) && s[2..] == PutLe16(v / U16);
    s
  }

  /** The low byte comes first. */
  lemma Le16Is(s: seq<byte>, o: nat)
    requires o + 2 <= |s|
    ensures Le16(s, o) % 0x100 == s[o] && Le16(s, o) / 0x100 == s[o + 1]
  {
  }

  lemma Le32Is(s: seq<byte>, o: nat)
    requires o + 4 <= |s|
    ensures Le32(s, o) % 0x100 == s[o] && Le32(s, o) / 0x100 % 0x100 == s[o + 1]
    ensures Le32(s, o) / 0x1_0000 % 0x100 == s[o + 2] && Le32(s, o) / 0x100_0000 == s[o + 3]
  {
    Le16Is(s, o);
    Le16Is(s, o + 2);
    WordParts(Le16(s, o), Le16(s, o + 2));
  }

  lemma WordParts(low: nat, high: nat)
    requires low < U16 && high < U16
    ensures var w := low + U16 * high;
            w % 0x100 == low % 0x100 && w / 0x100 % 0x100 == low / 0x100
            && w / 0x1_0000 % 0x100 == high % 0x100 && w / 0x100_0000 == high / 0x100
  {
    var w := low + U16 * high;
    assert w / 0x1_0000 == high;
    assert w / 0x100 == low / 0x100 + 0x100 * high;
  }

  function Zeros(n: nat): (s: seq<byte>)
    ensures |s| == n && forall i :: 0 <= i < n ==> s[i] == 0
  {
    seq(n, _ => 0)
  }

  /** `s` with the bytes from `o` on overwritten by `x`. */
  function Splice<T>(s: seq<T>, o: nat, x: seq<T>): (r: seq<T>)
    requires o + |x| <= |s|
    ensures |r| == |s|
    ensures forall i {:trigger r[i]} :: 0 <= i < |s| ==> r[i] == if o <= i < o + |x| then x[i - o] else s[i]
  {
    s[..o] + x + s[o + |x|..]
  }

  /** What a reader of `n` bytes at `o` gets when it stops at the end of `s`. */
  function Clip<T>(s: seq<T>, o: nat, n: nat): (r: seq<T>)
    ensures |r| <= n
  {
    if o >= |s| then [] else if o + n <= |s| then s[o..o + n] else s[o..]
  }

  function Min(a: int, b: int): int { if a <= b then a else b }

  function Max(a: int, b: int): int { if a >= b then a else b }

  /** The codes of an ASCII string. */
  function Text(s: string): seq<byte> { seq(|s|, i requires 0 <= i < |s| => s[i] as int % 0x100) }

  // ASCII letters.

  function Lower(c: byte): byte { if 0x41 <= c <= 0x5A then c + 0x20 else c }

  function Upper(c: byte): byte { if 0x61 <= c <= 0x7A then c - 0x20 else c }

  lemma SliceOfSlice<T>(d: seq<T>, p: nat, n: nat, i: nat, k: nat)
    requires p + n <= |d| && i + k <= n
    ensures d[p..p + n][i..i + k] == d[p + i..p + i + k]
  {
    var inner := d[p..p + n];
    var a, b := inner[i..i + k], d[p + i..p + i + k];
    forall z | 0 <= z < k
      ensures a[z] == b[z]
    {
      assert a[z] == inner[i + z];
    }
  }

  lemma MulLe(a: nat, b: nat, n: nat)
    requires a <= b
    ensures a * n <= b * n
  {
  }

  lemma DivMod(a: nat, n: nat)
    requires n > 0
    ensures a == a / n * n + a % n
  {
  }

  lemma MulSucc(a: nat, n: nat)
    ensures (a + 1) * n == a * n + n
  {
  }
}
