/**
 The physical frame allocator (kernel/mm/pmm.cpp): a bitmap of 512 words of 64 bits, kept in
 step with a counter.  `Bits` gives the bitmap as one flag per frame.
*/
module Frames {

  const PAGE_SIZE := 4096
  const WORDS := 512
  const TOTAL := 32768
  const FIRST_FREE := 3584
  const FULL: bv64 := 0xFFFF_FFFF_FFFF_FFFF

  // ---- bits of words ----

  predicate Bit(w: bv64, b: bv6) { (w >> b) & 1 == 1 }

  function Mask(b: bv6): bv64 { 1 << b }

  function WithBit(w: bv64, b: bv6): bv64 { w | Mask(b) }

  function WithoutBit(w: bv64, b: bv6): bv64 { w & !Mask(b) }

  predicate MaskHits(w: bv64, b: bv6) { w & Mask(b) != 0 }

  lemma OneBit(b: bv6, c: bv6)
    ensures Bit(Mask(b), c) <==> b == c
  {
  }

  lemma WithoutBits(w: bv64, b: bv6, c: bv6)
    ensures Bit(WithoutBit(w, b), c) <==> Bit(w, c) && !Bit(Mask(b), c)
  {
    hide Mask;
  }

  lemma SetBit(w: bv64, b: bv6, c: bv6)
    ensures Bit(WithBit(w, b), c) <==> b == c || Bit(w, c)
  {
  }

  lemma ClearBit(w: bv64, b: bv6, c: bv6)
    ensures Bit(WithoutBit(w, b), c) <==> b != c && Bit(w, c)
  {
    hide Bit, WithoutBit, Mask;
    OneBit(b, c);
    WithoutBits(w, b, c);
  }

  lemma TestBit(w: bv64, b: bv6)
    ensures MaskHits(w, b) <==> Bit(w, b)
  {
  }

  lemma NotBit(w: bv64, b: bv6)
    ensures Bit(!w, b) <==> !Bit(w, b)
  {
  }

  lemma FullBit(b: bv6)
    ensures Bit(FULL, b)
  {
  }

  /** The bit of a frame inside its word. */
  function Place(f: nat): bv6 { (f % 64) as bv6 }

  lemma PlaceIs(f: nat)
    ensures Place(f) as int == f % 64
  {
  }

  lemma PlacesDiffer(f: nat, h: nat)
    requires f / 64 == h / 64 && f != h
    ensures Place(f) != Place(h)
  {
    hide Place;
    PlaceIs(f);
    PlaceIs(h);
  }

  /** One flag per frame: is it used? */
  function Bits(words: seq<bv64>): (u: seq<bool>)
    ensures |u| == 64 * |words| && forall f {:trigger u[f]} :: 0 <= f < |u| ==> u[f] == Bit(words[f / 64], Place(f))
  {
    seq(64 * |words|, f requires 0 <= f < 64 * |words| => Bit(words[f / 64], Place(f)))
  }

  lemma BitsSet(words: seq<bv64>, f: nat)
    requires f < 64 * |words|
    ensures Bits(words[f / 64 := WithBit(words[f / 64], Place(f))]) == Bits(words)[f := true]
  {
    hide Bit, Place, WithBit, WithoutBit;
    var w := words[f / 64];
    var now := words[f / 64 := WithBit(w, Place(f))];
    forall h | 0 <= h < 64 * |words|
      ensures Bit(now[h / 64], Place(h)) <==> h == f || Bit(words[h / 64], Place(h))
    {
      SetBit(w, Place(f), Place(h));
      if h / 64 == f / 64 && h != f {
        PlacesDiffer(f, h);
      }
    }
  }

  lemma BitsClear(words: seq<bv64>, f: nat)
    requires f < 64 * |words|
    ensures Bits(words[f / 64 := WithoutBit(words[f / 64], Place(f))]) == Bits(words)[f := false]
  {
    hide Bit, Place, WithBit, WithoutBit;
    var w := words[f / 64];
    var now := words[f / 64 := WithoutBit(w, Place(f))];
    forall h | 0 <= h < 64 * |words|
      ensures Bit(now[h / 64], Place(h)) <==> h != f && Bit(words[h / 64], Place(h))
    {
      ClearBit(w, Place(f), Place(h));
      if h / 64 == f / 64 && h != f {
        PlacesDiffer(f, h);
      }
    }
  }

  lemma BitsTest(words: seq<bv64>, f: nat)
    requires f < 64 * |words|
    ensures MaskHits(words[f / 64], Place(f)) <==> Bits(words)[f]
  {
    hide Bit, Place, MaskHits;
    TestBit(words[f / 64], Place(f));
  }

  predicate LowZero(x: bv64, b: bv6) { x & ((1 << b) - 1) == 0 }

  /** No bit below `b` is set. */
  ghost predicate NoneBelow(x: bv64, b: bv6) {
    forall c: bv6 :: c < b ==> !Bit(x, c)
  }

  /** `__builtin_ctzll`: the lowest set bit of a non-zero word. */
  method CountTrailingZeros(x: bv64) returns (b: bv6)
    requires x != 0
    ensures Bit(x, b) && NoneBelow(x, b)
  {
    hide NoneBelow, LowZero, Bit;
    b := 0;
    NoneBelowZero(x);
    while !Bit(x, b)
      invariant LowZero(x, b) && NoneBelow(x, b)
      decreases 63 - b
    {
      LowBitsZero(x, b);
      NoneBelowNext(x, b);
      b := b + 1;
    }
  }

  lemma NoneBelowZero(x: bv64)
    ensures NoneBelow(x, 0) && LowZero(x, 0)
  {
  }

  lemma LowBitsZero(x: bv64, b: bv6)
    requires x != 0 && LowZero(x, b) && !Bit(x, b)
    ensures b < 63 && LowZero(x, b + 1) && 63 - (b + 1) < 63 - b
  {
  }

  lemma NoneBelowNext(x: bv64, b: bv6)
    requires NoneBelow(x, b) && !Bit(x, b) && b < 63
    ensures NoneBelow(x, b + 1)
  {
    hide Bit;
    forall c: bv6 | c < b + 1
      ensures !Bit(x, c)
    {
      assert c < b || c == b;
    }
  }

  /** `b` is the place of the lowest clear bit. */
  ghost predicate LowestClear(word: bv64, bit: bv6, b: nat) {
    bit as int == b && Bit(!word, bit) && NoneBelow(!word, bit)
  }

  /** The bit the allocator picks: `__builtin_ctzll(~word)`. */
  method FirstClear(word: bv64) returns (b: nat, ghost bit: bv6)
    requires word != FULL
    ensures LowestClear(word, bit, b)
  {
    hide Bit, NoneBelow;
    NotFull(word);
    var place := CountTrailingZeros(!word);
    b, bit := place as int, place;
  }

  // ---- the specification, on flags ----

  function Count(u: seq<bool>): (n: nat)
    ensures n <= |u|
  {
    if u == [] then 0 else Count(u[..|u| - 1]) + if u[|u| - 1] then 1 else 0
  }

  lemma {:induction false} CountUpdate(u: seq<bool>, f: nat, b: bool)
    requires f < |u|
    ensures Count(u[f := b]) == Count(u) - (if u[f] then 1 else 0) + (if b then 1 else 0)
  {
    var n := |u| - 1;
    if f == n {
      assert u[f := b][..n] == u[..n];
    } else {
      assert u[f := b][..n] == u[..n][f := b];
      CountUpdate(u[..n], f, b);
    }
  }

  lemma {:induction false} CountAll(u: seq<bool>)
    requires forall f :: 0 <= f < |u| ==> u[f]
    ensures Count(u) == |u|
  {
    if u != [] {
      CountAll(u[..|u| - 1]);
    }
  }

  /** `f` is the lowest free frame; |u| when none is free. */
  ghost predicate LowestFree(u: seq<bool>, f: nat) {
    f <= |u| && (f < |u| ==> !u[f]) && forall h :: 0 <= h < f ==> u[h]
  }

  /** `n` free frames in a row from `s` on. */
  ghost predicate RunAt(u: seq<bool>, s: nat, n: nat) {
    s + n <= |u| && forall h :: s <= h < s + n ==> !u[h]
  }

  ghost predicate NoRunBefore(u: seq<bool>, s: nat, n: nat) {
    forall h: nat :: h < s ==> !RunAt(u, h, n)
  }

  /** `u` with frames `s` to `s + n` marked used. */
  function Taken(u: seq<bool>, s: nat, n: nat): (r: seq<bool>)
    requires s + n <= |u|
    ensures |r| == |u| && forall f {:trigger r[f]} :: 0 <= f < |u| ==> r[f] == (u[f] || s <= f < s + n)
  {
    seq(|u|, f requires 0 <= f < |u| => u[f] || s <= f < s + n)
  }

  function Initial(): (u: seq<bool>)
    ensures |u| == TOTAL && forall f :: 0 <= f < TOTAL ==> u[f] == (f < FIRST_FREE)
  {
    seq(TOTAL, f => f < FIRST_FREE)
  }

  // ---- the allocator ----

  class Allocator {
    const bitmap: array<bv64>
    var usedCount: nat

    ghost predicate Valid()
      reads this, bitmap
    {
      bitmap.Length == WORDS && usedCount == Count(Used())
    }

    ghost function Used(): (u: seq<bool>)
      reads this, bitmap
    {
      Bits(bitmap[..])
    }

    /** pmm_init */
    constructor ()
      ensures Valid() && fresh(bitmap) && Used() == Initial() && usedCount == FIRST_FREE
    {
      bitmap := new bv64[WORDS](_ => FULL);
      usedCount := TOTAL;
      new;
      hide Bit, Place, WithBit, WithoutBit, Bits, Count;
      AllUsed(bitmap[..]);
      CountAll(Used());
      var f := FIRST_FREE;
      while f < TOTAL
        invariant FIRST_FREE <= f <= TOTAL && usedCount == FIRST_FREE + (TOTAL - f)
        invariant bitmap.Length == WORDS && |Used()| == TOTAL && usedCount == Count(Used())
        invariant forall h :: 0 <= h < TOTAL ==> Used()[h] == (h < FIRST_FREE || h >= f)
      {
        ClearFrame(f);
        f := f + 1;
      }
    }

    /** `frame_bitmap[f / 64] &= ~(1 << f % 64)` and the counter with it. */
    method ClearFrame(f: nat)
      requires Valid() && f < TOTAL && Used()[f]
      modifies this, bitmap
      ensures Valid() && Used() == old(Used())[f := false] && usedCount == old(usedCount) - 1
    {
      hide Bit, Place, WithoutBit, Bits, Count;
      BitsSize(bitmap[..]);
      BitsClear(bitmap[..], f);
      CountUpdate(Used(), f, false);
      ghost var words := bitmap[..];
      bitmap[f / 64] := WithoutBit(bitmap[f / 64], Place(f));
      assert bitmap[..] == words[f / 64 := WithoutBit(words[f / 64], Place(f))];
      usedCount := usedCount - 1;
    }

    method SetFrame(f: nat)
      requires Valid() && f < TOTAL && !Used()[f]
      modifies this, bitmap
      ensures Valid() && Used() == old(Used())[f := true] && usedCount == old(usedCount) + 1
    {
      hide Bit, Place, WithBit, Bits, Count;
      BitsSize(bitmap[..]);
      BitsSet(bitmap[..], f);
      CountUpdate(Used(), f, true);
      ghost var words := bitmap[..];
      bitmap[f / 64] := WithBit(bitmap[f / 64], Place(f));
      assert bitmap[..] == words[f / 64 := WithBit(words[f / 64], Place(f))];
      usedCount := usedCount + 1;
    }

    /** Takes the lowest free frame of a word that has one. */
    method TakeFrom(w: nat) returns (addr: nat, ghost f: nat)
      requires Valid() && w < WORDS && bitmap[w] != FULL && AllUsedBelow(Used(), 64 * w)
      modifies this, bitmap
      ensures Valid() && LowestFree(old(Used()), f) && f < TOTAL == |old(Used())| && addr == f * PAGE_SIZE
      ensures Used() == old(Used())[f := true] && (addr == 0 <==> !old(Used())[0])
    {
      hide Bits, Count, LowestFree, AllUsedBelow, LowestClear;
      BitsSize(bitmap[..]);
      var place: nat, bit := FirstClear(bitmap[w]);
      var frame := w * 64 + place;
      LowestClearIs(bitmap[..], w, bit, place);
      SetFrame(frame);
      ZeroIsFirst(old(Used()), frame);
      addr, f := frame * PAGE_SIZE, frame;
    }

    /** Takes the lowest free frame; 0 stands both for frame 0 and for none. */
    method AllocFrame() returns (addr: nat, ghost f: nat)
      requires Valid()
      modifies this, bitmap
      ensures Valid() && LowestFree(old(Used()), f) && f <= TOTAL && |Used()| == TOTAL == |old(Used())|
      ensures f < TOTAL ==> addr == f * PAGE_SIZE && Used() == old(Used())[f := true]
      ensures f == TOTAL ==> addr == 0 && Used() == old(Used())
      ensures addr == 0 && Used() != old(Used()) <==> !old(Used())[0]
    {
      hide Bit, Place, WithBit, Bits, Count, LowestFree;
      BitsSize(bitmap[..]);
      var w := 0;
      FreeFrom(Used());
      while w < WORDS
        invariant 0 <= w <= WORDS && Used() == old(Used()) && Valid()
        invariant AllUsedBelow(Used(), 64 * w)
      {
        var word := bitmap[w];
        if word != FULL {
          addr, f := TakeFrom(w);
          return;
        }
        FullWord(bitmap[..], w);
        w := w + 1;
      }
      NoneFree(Used());
      ZeroIsFirst(Used(), TOTAL);
      return 0, TOTAL;
    }

    /** Takes the lowest run of `count` free frames.  A count of 1 goes through AllocFrame, 0 takes nothing. */
    method AllocContiguousFrames(count: nat) returns (addr: nat, ghost start: nat)
      requires Valid()
      modifies this, bitmap
      ensures Valid() && |Used()| == TOTAL == |old(Used())| && start <= TOTAL
      ensures count == 0 ==> start == TOTAL
      ensures start < TOTAL ==> RunAt(old(Used()), start, count) && NoRunBefore(old(Used()), start, count)
      ensures start == TOTAL && count > 0 ==> forall s: nat :: !RunAt(old(Used()), s, count)
      ensures if start < TOTAL then addr == start * PAGE_SIZE && Used() == Taken(old(Used()), start, count)
              else addr == 0 && Used() == old(Used())
    {
      hide Bit, Place, WithBit, Bits, Count, MaskHits, LowestFree, RunAt, NoRunBefore, Taken;
      BitsSize(bitmap[..]);
      if count == 0 { return 0, TOTAL; }
      if count == 1 {
        ghost var u := Used();
        addr, start := AllocFrame();
        SingleRun(u, start);
        return;
      }
      var consecutive, startFrame := 0, 0;
      var f := 0;
      RunsFromStart(Used(), count);
      while f < TOTAL
        invariant 0 <= f <= TOTAL && Used() == old(Used()) && Valid() && consecutive < count
        invariant Scanned(Used(), f, consecutive, count) && (consecutive > 0 ==> startFrame == f - consecutive)
        invariant startFrame >= 0
      {
        BitsTest(bitmap[..], f);
        var isUsed := MaskHits(bitmap[f / 64], Place(f));
        ScanOn(Used(), f, consecutive, count);
        if !isUsed {
          if consecutive == 0 { startFrame := f; }
          consecutive := consecutive + 1;
          if consecutive == count {
            TakeRun(startFrame, count);
            return startFrame * PAGE_SIZE, startFrame;
          }
        } else {
          consecutive := 0;
        }
        f := f + 1;
      }
      ScanEnds(Used(), consecutive, count);
      return 0, TOTAL;
    }

    method TakeRun(start: nat, count: nat)
      requires Valid() && RunAt(Used(), start, count) && |Used()| == TOTAL
      modifies this, bitmap
      ensures Valid() && |Used()| == TOTAL && |old(Used())| == TOTAL && start + count <= TOTAL
              && Used() == Taken(old(Used()), start, count)
    {
      hide Bit, Place, WithBit, Bits, Count;
      var k := start;
      while k < start + count
        invariant start <= k <= start + count && Valid() && |Used()| == TOTAL && |old(Used())| == TOTAL
        invariant Used() == Taken(old(Used()), start, k - start)
      {
        SetFrame(k);
        assert Used() == Taken(old(Used()), start, k + 1 - start);
        k := k + 1;
      }
    }

    /** Frees the frame of an address; a free frame or one out of range is left alone. */
    method FreeFrame(addr: nat)
      requires Valid()
      modifies this, bitmap
      ensures Valid() && |old(Used())| == TOTAL
      ensures Used() == if addr / PAGE_SIZE < TOTAL then old(Used())[addr / PAGE_SIZE := false] else old(Used())
    {
      hide Bit, Place, WithoutBit, Bits, Count, MaskHits;
      BitsSize(bitmap[..]);
      var frame := addr / PAGE_SIZE;
      if frame >= TOTAL { return; }
      BitsTest(bitmap[..], frame);
      if MaskHits(bitmap[frame / 64], Place(frame)) {
        CountPositive(Used(), frame);
        ClearFrame(frame);
      } else {
        assert Used()[frame := false] == Used();
      }
    }

    method Stats() returns (total: nat, used: nat, free: int)
      requires Valid()
      ensures total == TOTAL && used == Count(Used()) && free == TOTAL - Count(Used())
    {
      BitsSize(bitmap[..]);
      total, used := TOTAL, usedCount;
      free := if total >= used then total - used else 0;
    }
  }

  lemma {:induction false} CountPositive(u: seq<bool>, f: nat)
    requires f < |u| && u[f]
    ensures Count(u) > 0
  {
    if f < |u| - 1 {
      CountPositive(u[..|u| - 1], f);
    }
  }

  // ---- the word scan ----

  ghost predicate AllUsedBelow(u: seq<bool>, n: nat) {
    n <= |u| && forall f :: 0 <= f < n ==> u[f]
  }

  lemma FreeFrom(u: seq<bool>)
    ensures AllUsedBelow(u, 0)
  {
  }

  lemma NoneFree(u: seq<bool>)
    requires AllUsedBelow(u, |u|)
    ensures LowestFree(u, |u|)
  {
  }

  /** The lowest free frame is frame 0 exactly when that is free. */
  lemma ZeroIsFirst(u: seq<bool>, f: nat)
    requires LowestFree(u, f) && |u| > 0
    ensures f == 0 <==> !u[0]
    ensures f < |u| ==> !u[f]
  {
  }

  lemma LowestClearIs(words: seq<bv64>, w: nat, bit: bv6, b: nat)
    requires w < |words| && LowestClear(words[w], bit, b) && AllUsedBelow(Bits(words), 64 * w)
    ensures w * 64 + b < |Bits(words)| && !Bits(words)[w * 64 + b] && LowestFree(Bits(words), w * 64 + b)
  {
    hide Bit, NoneBelow, Bits, AllUsedBelow, LowestFree;
    LowestInWord(words, w, bit);
  }

  lemma NotFull(w: bv64)
    requires w != FULL
    ensures !w != 0
  {
  }

  lemma FullWord(words: seq<bv64>, w: nat)
    requires w < |words| && words[w] == FULL && AllUsedBelow(Bits(words), 64 * w)
    ensures AllUsedBelow(Bits(words), 64 * (w + 1))
  {
    hide Bit, Place;
    forall f | 64 * w <= f < 64 * (w + 1)
      ensures Bits(words)[f]
    {
      FullBit(Place(f));
    }
  }

  lemma BitsAt(words: seq<bv64>, w: nat, f: nat)
    requires w < |words| && 64 * w <= f < 64 * (w + 1)
    ensures f < |Bits(words)| && Bits(words)[f] == Bit(words[w], Place(f)) && Place(f) as int == f - 64 * w
  {
    hide Bit, Place;
    PlaceIs(f);
    assert f / 64 == w;
  }

  lemma ZeroBelow(w: bv64, b: bv6, c: bv6)
    requires NoneBelow(!w, b) && c as int < b as int
    ensures Bit(w, c)
  {
    hide Bit;
    PlaceOrder(c, b);
    NotBit(w, c);
  }

  lemma UsedInWord(words: seq<bv64>, w: nat, b: bv6, f: nat)
    requires w < |words| && NoneBelow(!words[w], b) && 64 * w <= f < 64 * w + b as int
    ensures f < |Bits(words)| && Bits(words)[f]
  {
    hide Bit, Place, Bits, NoneBelow;
    assert b as int < 64;
    BitsAt(words, w, f);
    ZeroBelow(words[w], b, Place(f));
  }

  lemma FreeInWord(words: seq<bv64>, w: nat, b: bv6, f: nat)
    requires w < |words| && Bit(!words[w], b) && f == 64 * w + b as int
    ensures f < |Bits(words)| && !Bits(words)[f]
  {
    hide Bit, Place, Bits;
    assert b as int < 64;
    BitsAt(words, w, f);
    SamePlace(Place(f), b);
    NotBit(words[w], b);
  }

  lemma LowestInWord(words: seq<bv64>, w: nat, b: bv6)
    requires w < |words| && Bit(!words[w], b) && NoneBelow(!words[w], b) && AllUsedBelow(Bits(words), 64 * w)
    ensures w * 64 + b as int < |Bits(words)| && !Bits(words)[w * 64 + b as int]
            && LowestFree(Bits(words), w * 64 + b as int)
  {
    hide Bit, Place, Bits, NoneBelow;
    var n := w * 64 + b as int;
    FreeInWord(words, w, b, n);
    forall f | 64 * w <= f < n
      ensures Bits(words)[f]
    {
      UsedInWord(words, w, b, f);
    }
  }

  lemma SamePlace(a: bv6, b: bv6)
    requires a as int == b as int
    ensures a == b
  {
  }

  lemma PlaceOrder(a: bv6, b: bv6)
    requires a as int < b as int
    ensures a < b
  {
  }

  // ---- the run scan ----

  lemma SingleRun(u: seq<bool>, f: nat)
    requires LowestFree(u, f)
    ensures if f < |u| then RunAt(u, f, 1) && NoRunBefore(u, f, 1) && Taken(u, f, 1) == u[f := true]
            else forall s: nat :: !RunAt(u, s, 1)
  {
    forall h: nat | h < f
      ensures !RunAt(u, h, 1)
    {
      assert u[h];
    }
  }

  /** After frames below `f`: the last `c` are free, the one before them is not, and no run of `n` starts before
      them. */
  ghost predicate Scanned(u: seq<bool>, f: nat, c: nat, n: nat) {
    c <= f <= |u| && RunAt(u, f - c, c) && NoRunBefore(u, f - c, n)
  }

  lemma RunsFromStart(u: seq<bool>, n: nat)
    ensures Scanned(u, 0, 0, n)
  {
  }

  lemma ScanOn(u: seq<bool>, f: nat, c: nat, n: nat)
    requires Scanned(u, f, c, n) && f < |u| && c < n
    ensures if u[f] then Scanned(u, f + 1, 0, n) else Scanned(u, f + 1, c + 1, n)
    ensures !u[f] && c + 1 == n ==> RunAt(u, f - c, n) && NoRunBefore(u, f - c, n)
  {
    if u[f] {
      forall h: nat | h < f + 1
        ensures !RunAt(u, h, n)
      {
        if h >= f - c && h + n <= |u| {
          assert h <= f < h + n;
        }
      }
    }
  }

  lemma ScanEnds(u: seq<bool>, c: nat, n: nat)
    requires Scanned(u, |u|, c, n) && c < n
    ensures forall s: nat :: !RunAt(u, s, n)
  {
    forall s: nat
      ensures !RunAt(u, s, n)
    {
      assert s < |u| - c || s + n > |u|;
    }
  }

  lemma BitsSize(words: seq<bv64>)
    ensures |Bits(words)| == 64 * |words|
  {
  }

  lemma AllUsed(words: seq<bv64>)
    requires |words| == WORDS && forall w :: 0 <= w < WORDS ==> words[w] == FULL
    ensures |Bits(words)| == TOTAL && forall f :: 0 <= f < TOTAL ==> Bits(words)[f]
  {
    hide Bit, Place;
    forall f | 0 <= f < TOTAL
      ensures Bit(words[f / 64], Place(f))
    {
      FullBit(Place(f));
    }
  }
}
