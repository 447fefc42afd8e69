/** The Internet checksum of kernel/net/ipv4.cpp:14-32 (RFC 1071, section 1), with its 32-bit accumulator. */
module Checksum {
  import opened Bytes

  const ONES := 0xFFFF

  /** The sum of the little-endian 16-bit words of `s`, an odd last byte counting as a word. */
  function WordSum(s: seq<byte>): nat {
    if |s| == 0 then 0 else if |s| == 1 then s[0] else Le16(s, 0) + WordSum(s[2..])
  }

  /** The end-around carry: equal to `x` modulo 65535, and 0 only for 0. */
  function Fold(x: nat): (r: nat)
    ensures r <= ONES && r % ONES == x % ONES && (r == 0 <==> x == 0)
  {
    if x < U16 then x
    else
      CarryIsModulo(x);
      Fold(x % U16 + x / U16)
  }

  lemma CarryIsModulo(x: nat)
    ensures (x % U16 + x / U16) % ONES == x % ONES
  {
    var q, r := x / U16, x % U16;
    assert x == ONES * q + (q + r);
  }

  function Sum(s: seq<byte>): nat { Fold(WordSum(s) % U32) }

  function ChecksumOf(s: seq<byte>): (c: nat)
    ensures c <= ONES
  {
    ONES - Sum(s)
  }

  method Ipv4Checksum(data: seq<byte>) returns (c: nat)
    ensures c == ChecksumOf(data)
  {
    hide WordSum, Le16;
    var sum, i := 0, 0;
    assert data[0..] == data;
    while |data| - i > 1
      invariant 0 <= i <= |data| && 0 <= sum < U32
      invariant (sum + WordSum(data[i..])) % U32 == WordSum(data) % U32
    {
      WordNext(data, i);
      ModShift(sum + Le16(data, i), WordSum(data[i + 2..]));
      sum := (sum + Le16(data, i)) % U32;
      i := i + 2;
    }
    WordsEnd(data, i);
    if |data| - i > 0 {
      ModShift(sum + data[i], 0);
      sum := (sum + data[i]) % U32;
    }
    ghost var total := sum;
    assert total == WordSum(data) % U32;
    while sum >= U16
      invariant 0 <= sum < U32 && Fold(sum) == Fold(total)
    {
      sum := sum % U16 + sum / U16;
    }
    c := ONES - sum;
  }

  lemma WordNext(data: seq<byte>, i: nat)
    requires i + 2 <= |data|
    ensures WordSum(data[i..]) == Le16(data, i) + WordSum(data[i + 2..])
  {
    assert Le16(data[i..], 0) == Le16(data, i) && data[i..][2..] == data[i + 2..];
  }

  lemma WordsEnd(data: seq<byte>, i: nat)
    requires i <= |data| <= i + 1
    ensures WordSum(data[i..]) == if i == |data| then 0 else data[i]
  {
  }

  lemma ModShift(a: nat, b: nat)
    ensures (a % U32 + b) % U32 == (a + b) % U32
  {
    var q := a / U32;
    assert a + b == U32 * q + (a % U32 + b);
  }

  function WithWord(s: seq<byte>, k: nat, v: nat): (r: seq<byte>)
    requires k + 2 <= |s| && v < U16
    ensures |r| == |s|
  {
    Splice(s, k, PutLe16(v))
  }

  /** Storing a word at an even offset changes the sum by that word. */
  lemma {:induction false} WordSumStore(s: seq<byte>, k: nat, v: nat)
    requires k % 2 == 0 && k + 2 <= |s| && v < U16
    ensures WordSum(WithWord(s, k, v)) == WordSum(s) - Le16(s, k) + v
  {
    var t := WithWord(s, k, v);
    if k == 0 {
      assert t[2..] == s[2..] && t[..2] == PutLe16(v) && t[0] == PutLe16(v)[0] && t[1] == PutLe16(v)[1];
    } else {
      assert t[2..] == WithWord(s[2..], k - 2, v);
      assert Le16(s[2..], k - 2) == Le16(s, k);
      WordSumStore(s[2..], k - 2, v);
    }
  }

  lemma {:induction false} WordSumBound(s: seq<byte>)
    ensures WordSum(s) <= ONES * ((|s| + 1) / 2)
  {
    if |s| > 1 {
      WordSumBound(s[2..]);
    }
  }

  /** What a fold is, in closed form. */
  lemma FoldIsOnes(x: nat)
    ensures Fold(x) == ONES <==> x > 0 && x % ONES == 0
    ensures x % ONES != 0 ==> Fold(x) == x % ONES
  {
  }

  /** Adding the checksum never overflows the accumulator: it lifts the sum to the next multiple of 65535,
      and the largest 32-bit number is one. */
  lemma ChecksumFits(t: nat)
    requires t < U32
    ensures t + (ONES - Fold(t)) < U32 && (t + (ONES - Fold(t))) % ONES == 0 && t + (ONES - Fold(t)) > 0
  {
    hide Fold;
    FoldIsOnes(t);
    var q, f := t / ONES, Fold(t);
    assert U32 - 1 == ONES * 65537;
    if t % ONES == 0 {
      assert f == if t == 0 then 0 else ONES;
    } else {
      assert f == t % ONES;
      assert t + (ONES - f) == ONES * (q + 1) && q + 1 <= 65537;
    }
  }

  /** A buffer whose checksum was stored in its zeroed field checks to 0, whatever its length. */
  lemma StoredChecksumVerifies(s: seq<byte>, k: nat)
    requires k % 2 == 0 && k + 2 <= |s| && Le16(s, k) == 0
    ensures ChecksumOf(WithWord(s, k, ChecksumOf(s))) == 0
  {
    hide Fold, WordSum, WithWord;
    var c, t := ChecksumOf(s), WordSum(s) % U32;
    WordSumStore(s, k, c);
    ModShift(WordSum(s), c);
    ChecksumFits(t);
    FoldIsOnes(t + c);
  }

  /** The checksum of RFC 1071, with an accumulator that never overflows. */
  function Rfc1071(s: seq<byte>): (c: nat) { ONES - Fold(WordSum(s)) }

  /** The computed value is the one RFC 1071 defines exactly when the carries lost beyond 32 bits are 0 modulo
      65535 and do not turn a sum into 0. */
  lemma ChecksumIsRfc1071Iff(s: seq<byte>)
    ensures ChecksumOf(s) == Rfc1071(s) <==>
            (WordSum(s) / U32) % ONES == 0 && (WordSum(s) % U32 == 0 ==> WordSum(s) == 0)
  {
    hide Fold, WordSum;
    var n := WordSum(s);
    LostCarries(n);
    FoldIsOnes(n);
    FoldIsOnes(n % U32);
  }

  /** 2^32 is 1 modulo 65535. */
  lemma LostCarries(n: nat)
    ensures n % ONES == (n / U32 + n % U32) % ONES
    ensures n % ONES == n % U32 % ONES <==> (n / U32) % ONES == 0
  {
    var q, t := n / U32, n % U32;
    assert n == ONES * (65537 * q) + (q + t);
    Multiples(65537 * q, q + t);
    SameResidue(q, t);
  }

  lemma Multiples(a: nat, b: nat)
    ensures (ONES * a + b) % ONES == b % ONES
  {
    assert ONES * a + b == ONES * (a + b / ONES) + b % ONES;
  }

  lemma SameResidue(q: nat, t: nat)
    ensures (q + t) % ONES == t % ONES <==> q % ONES == 0
  {
    var x, y := q % ONES, t % ONES;
    SumResidue(q, t, x + y);
  }

  lemma SumResidue(q: nat, t: nat, s: nat)
    requires s == q % ONES + t % ONES
    ensures (q + t) % ONES == if s < ONES then s else s - ONES
  {
    var k := q / ONES + t / ONES;
    assert q + t == ONES * k + s;
    if s < ONES {
      ResidueIs(q + t, k, s);
    } else {
      ResidueIs(q + t, k + 1, s - ONES);
    }
  }

  lemma ResidueIs(a: int, k: int, r: nat)
    requires a == ONES * k + r && r < ONES
    ensures a % ONES == r
  {
  }

  /** Every buffer of up to 131074 bytes gets the value of RFC 1071. */
  lemma ShortIsRfc1071(s: seq<byte>)
    requires |s| <= 131074
    ensures ChecksumOf(s) == Rfc1071(s)
  {
    hide Fold, WordSum;
    WordSumBound(s);
    ChecksumIsRfc1071Iff(s);
  }

  function AllOnes(words: nat): (s: seq<byte>)
    ensures |s| == 2 * words
  {
    seq(2 * words, _ => 0xFF)
  }

  lemma {:induction false} AllOnesSum(words: nat)
    ensures WordSum(AllOnes(words)) == ONES * words
  {
    if words > 0 {
      assert AllOnes(words)[2..] == AllOnes(words - 1);
      AllOnesSum(words - 1);
    }
  }

  /** Two bytes more are too many: 131076 bytes of 0xFF get 1 where RFC 1071 has 0. */
  lemma LongIsNotRfc1071()
    ensures ChecksumOf(AllOnes(65538)) == 1 && Rfc1071(AllOnes(65538)) == 0
  {
    hide WordSum, AllOnes, Fold;
    AllOnesSum(65538);
    FoldIsOnes(ONES * 65538);
    FoldIsOnes(65534);
  }

  // ---- byte order ----

  /** The sum RFC 1071 speaks of: 16-bit words with the high byte first, an odd last byte padded with a 0 behind it. */
  function NetWordSum(s: seq<byte>): nat {
    if |s| == 0 then 0
    else if |s| == 1 then 0x100 * s[0]
    else 0x100 * s[0] + s[1] + NetWordSum(s[2..])
  }

  function OddBytes(s: seq<byte>): nat {
    if |s| < 2 then 0 else s[1] + OddBytes(s[2..])
  }

  lemma {:induction false} SumsAgree(s: seq<byte>)
    ensures 0x100 * WordSum(s) == NetWordSum(s) + ONES * OddBytes(s)
    ensures WordSum(s) == 0 <==> NetWordSum(s) == 0
  {
    if |s| > 1 {
      SumsAgree(s[2..]);
    }
  }

  lemma FoldUnique(x: nat, r: nat)
    requires r <= ONES && r % ONES == x % ONES && (r == 0 <==> x == 0)
    ensures Fold(x) == r
  {
    FoldIsOnes(x);
  }

  /** The order of the bytes does not matter: what is stored, low byte first, is the checksum of RFC 1071 over words
      with the high byte first, high byte first. */
  lemma StoredInNetworkOrder(s: seq<byte>)
    ensures var c := ONES - Fold(NetWordSum(s)); PutLe16(Rfc1071(s)) == [c / 0x100, c % 0x100]
  {
    hide WordSum, NetWordSum, Fold, OddBytes, PutLe16;
    var n, v := WordSum(s), Fold(WordSum(s));
    var a, b := v % 0x100, v / 0x100;
    var w := 0x100 * a + b;
    SumsAgree(s);
    TimesResidue(n, v);
    Multiples(OddBytes(s), NetWordSum(s));
    assert 0x100 * v == ONES * b + w;
    Multiples(b, w);
    FoldUnique(NetWordSum(s), w);
    Complement(v, a, b);
  }

  /** Equal residues stay equal times 256. */
  lemma TimesResidue(n: nat, v: nat)
    requires n % ONES == v % ONES
    ensures 0x100 * n % ONES == 0x100 * v % ONES
  {
    var r := n % ONES;
    assert 0x100 * n == ONES * (0x100 * (n / ONES)) + 0x100 * r;
    assert 0x100 * v == ONES * (0x100 * (v / ONES)) + 0x100 * r;
    Multiples(0x100 * (n / ONES), 0x100 * r);
    Multiples(0x100 * (v / ONES), 0x100 * r);
  }

  lemma Complement(v: nat, a: nat, b: nat)
    requires v <= ONES && a == v % 0x100 && b == v / 0x100
    ensures var c := ONES - (0x100 * a + b); PutLe16(ONES - v) == [c / 0x100, c % 0x100]
  {
    var x, y := 0xFF - a, 0xFF - b;
    assert ONES - v == x + 0x100 * y;
    assert ONES - (0x100 * a + b) == 0x100 * x + y;
  }
}
