/** 8.3 names (kernel/fs/fat32.cpp:129-215).  A C string is the bytes before its NUL. */
module FatNames {
  import opened Bytes

  const SPACE: byte := 0x20
  const DOT: byte := 0x2E

  function LowerAll(s: seq<byte>): (r: seq<byte>)
    ensures |r| == |s|
  {
    seq(|s|, i requires 0 <= i < |s| => Lower(s[i]))
  }

  function UpperAll(s: seq<byte>): (r: seq<byte>)
    ensures |r| == |s|
  {
    seq(|s|, i requires 0 <= i < |s| => Upper(s[i]))
  }

  /** The last dot before position `n`, or -1. */
  function LastDot(s: seq<byte>, n: nat): (d: int)
    requires n <= |s|
    ensures -1 <= d < n && (d >= 0 ==> s[d] == DOT) && forall k :: d < k < n ==> s[k] != DOT
  {
    if n == 0 then -1 else if s[n - 1] == DOT then n - 1 else LastDot(s, n - 1)
  }

  function Base(s: seq<byte>): seq<byte> {
    var d := LastDot(s, |s|);
    if d < 0 then s else s[..d]
  }

  function Extension(s: seq<byte>): seq<byte> {
    var d := LastDot(s, |s|);
    if d < 0 then [] else s[d + 1..]
  }

  function Cut(s: seq<byte>, n: nat): (r: seq<byte>)
    ensures |r| == Min(|s|, n) && r <= s
  {
    if |s| <= n then s else s[..n]
  }

  function Spaces(n: nat): (s: seq<byte>)
    ensures |s| == n && forall i :: 0 <= i < n ==> s[i] == SPACE
  {
    seq(n, _ => SPACE)
  }

  function PadTo(s: seq<byte>, n: nat): (r: seq<byte>)
    requires |s| <= n
    ensures |r| == n
  {
    s + Spaces(n - |s|)
  }

  /** create_8_3_name: base and extension cut, upper-cased and padded with spaces. */
  function ShortName(s: seq<byte>): (r: seq<byte>)
    ensures |r| == 11
  {
    PadTo(UpperAll(Cut(Base(s), 8)), 8) + PadTo(UpperAll(Cut(Extension(s), 3)), 3)
  }

  function Strip(s: seq<byte>): (r: seq<byte>)
    ensures |r| <= |s|
  {
    if s == [] then [] else if s[0] == SPACE then Strip(s[1..]) else [s[0]] + Strip(s[1..])
  }

  /** format_8_3_name with room for all of it: spaces dropped, lower case, a dot before a non-empty extension. */
  function LongName(f: seq<byte>): (r: seq<byte>)
    requires |f| == 11
    ensures |r| <= 12
  {
    var b, e := LowerAll(Strip(f[..8])), LowerAll(Strip(f[8..]));
    if e == [] then b else b + [DOT] + e
  }

  predicate SameIgnoringCase(a: seq<byte>, b: seq<byte>) { LowerAll(a) == LowerAll(b) }

  // ---- the C loops ----

  method CreateShortName(name: seq<byte>) returns (out: seq<byte>)
    ensures out == ShortName(name)
  {
    hide UpperAll, Splice, ShortName;
    var buf := new byte[11](_ => SPACE);
    var dot := -1;
    var i := 0;
    while i < |name|
      invariant 0 <= i <= |name| && dot == LastDot(name, i)
    {
      if name[i] == DOT { dot := i; }
      i := i + 1;
    }
    FieldsWritten(name, dot, buf[..]);
    var baseLen := if dot >= 0 then dot else |name|;
    if baseLen > 8 { baseLen := 8; }
    UpperInto(buf, 0, name[..baseLen]);
    if dot >= 0 {
      var extLen := |name| - (dot + 1);
      if extLen > 3 { extLen := 3; }
      UpperInto(buf, 8, name[dot + 1..dot + 1 + extLen]);
    }
    out := buf[..];
  }

  method UpperInto(buf: array<byte>, at: nat, s: seq<byte>)
    requires at + |s| <= buf.Length
    modifies buf
    ensures buf[..] == Splice(old(buf[..]), at, UpperAll(s))
  {
    var i := 0;
    while i < |s|
      invariant 0 <= i <= |s|
      invariant forall k :: 0 <= k < buf.Length ==> buf[k] == if at <= k < at + i then Upper(s[k - at]) else old(buf[k])
    {
      buf[at + i] := Upper(s[i]);
      i := i + 1;
    }
  }

  /** The two fields written over eleven spaces. */
  lemma FieldsOverSpaces(b: seq<byte>, e: seq<byte>, blank: seq<byte>)
    requires |b| <= 8 && |e| <= 3
    requires |blank| == 11 && forall k :: 0 <= k < 11 ==> blank[k] == SPACE
    ensures PadTo(b, 8) + PadTo(e, 3) == Splice(Splice(blank, 0, b), 8, e)
    ensures PadTo(b, 8) + PadTo([], 3) == Splice(blank, 0, b)
  {
    hide LastDot;
    var x, y := PadTo(b, 8) + PadTo(e, 3), Splice(Splice(blank, 0, b), 8, e);
    assert |x| == |y|;
    forall k | 0 <= k < 11 ensures x[k] == y[k] { }
    assert PadTo(b, 8) + PadTo([], 3) == Splice(blank, 0, b);
  }

  lemma CutSlice(s: seq<byte>, i: nat, j: nat, n: nat)
    requires i <= j <= |s|
    ensures Cut(s[i..j], n) == s[i..i + Min(j - i, n)]
  {
  }

  lemma PartsCut(s: seq<byte>, d: int)
    requires d == LastDot(s, |s|)
    ensures Cut(Base(s), 8) == s[..Min(if d >= 0 then d else |s|, 8)]
    ensures d >= 0 ==> Cut(Extension(s), 3) == s[d + 1..d + 1 + Min(|s| - (d + 1), 3)]
    ensures d < 0 ==> Cut(Extension(s), 3) == []
  {
    hide LastDot, Cut, Base, Extension;
    PartsAre(s, d);
    var n := if d >= 0 then d else |s|;
    CutSlice(s, 0, n, 8);
    if d >= 0 {
      CutSlice(s, d + 1, |s|, 3);
    } else {
      CutSlice(s, 0, 0, 3);
    }
  }

  lemma PartsAre(s: seq<byte>, d: int)
    requires d == LastDot(s, |s|)
    ensures Base(s) == s[0..if d >= 0 then d else |s|]
    ensures Extension(s) == if d >= 0 then s[d + 1..|s|] else s[0..0]
  {
    hide LastDot;
  }

  /** What create_8_3_name leaves, in terms of the position of the last dot. */
  lemma FieldsWritten(s: seq<byte>, d: int, blank: seq<byte>)
    requires d == LastDot(s, |s|)
    requires |blank| == 11 && forall k :: 0 <= k < 11 ==> blank[k] == SPACE
    ensures d < 0 ==> ShortName(s) == Splice(blank, 0, UpperAll(s[..Min(|s|, 8)]))
    ensures var extLen := Min(|s| - (d + 1), 3);
            d >= 0 ==> ShortName(s) == Splice(Splice(blank, 0, UpperAll(s[..Min(d, 8)])), 8,
                                              UpperAll(s[d + 1..d + 1 + extLen]))
  {
    hide LastDot, UpperAll, PadTo, Splice, Base, Extension, Cut;
    PartsCut(s, d);
    var b, e := Cut(Base(s), 8), Cut(Extension(s), 3);
    FieldsOverSpaces(UpperAll(b), UpperAll(e), blank);
    if d < 0 {
      assert UpperAll(e) == [];
    }
  }

  method FormatShortName(f: seq<byte>, maxLen: nat) returns (out: seq<byte>)
    requires |f| == 11 && maxLen > 0
    ensures out == Cut(LongName(f), maxLen - 1)
  {
    var base := StripLoop(f[..8]);
    var ext := StripLoop(f[8..]);
    out := [];
    out := LowerInto(out, base, maxLen);
    assert out == Cut(LowerAll(base), maxLen - 1);
    if |ext| > 0 && |out| < maxLen - 1 {
      out := out + [DOT];
      out := LowerInto(out, ext, maxLen);
    }
  }

  method StripLoop(s: seq<byte>) returns (r: seq<byte>)
    ensures r == Strip(s)
  {
    r := [];
    var i := 0;
    assert s[0..] == s;
    while i < |s|
      invariant 0 <= i <= |s| && r + Strip(s[i..]) == Strip(s)
    {
      assert s[i..][1..] == s[i + 1..];
      if s[i] != SPACE {
        assert r + ([s[i]] + Strip(s[i + 1..])) == (r + [s[i]]) + Strip(s[i + 1..]);
        r := r + [s[i]];
      }
      i := i + 1;
    }
  }

  /** Appends lower-cased bytes while there is room. */
  method LowerInto(out: seq<byte>, s: seq<byte>, maxLen: nat) returns (r: seq<byte>)
    requires |out| <= maxLen - 1
    ensures r == Cut(out + LowerAll(s), maxLen - 1)
  {
    r := out;
    var i := 0;
    while i < |s| && |r| < maxLen - 1
      invariant 0 <= i <= |s| && |r| <= maxLen - 1 && |r| == |out| + i && r == (out + LowerAll(s))[..|out| + i]
    {
      r := r + [Lower(s[i])];
      i := i + 1;
    }
  }

  method EqualsIgnoreCase(a: seq<byte>, b: seq<byte>) returns (same: bool)
    ensures same <==> SameIgnoringCase(a, b)
  {
    var i := 0;
    while i < |a| && i < |b|
      invariant 0 <= i <= |a| && i <= |b|
      invariant forall k :: 0 <= k < i ==> Lower(a[k]) == Lower(b[k])
    {
      if Lower(a[i]) != Lower(b[i]) {
        assert LowerAll(a)[i] != LowerAll(b)[i];
        return false;
      }
      i := i + 1;
    }
    same := i == |a| && i == |b|;
    assert |LowerAll(a)| == |a| && |LowerAll(b)| == |b|;
  }

  // ---- the round trip ----

  /** A name 8.3 can hold: at most 8 and 3 characters, no space, no dot without an extension after it. */
  predicate FitsShort(s: seq<byte>) {
    |Base(s)| <= 8 && |Extension(s)| <= 3 && SPACE !in s && (LastDot(s, |s|) >= 0 ==> Extension(s) != [])
  }

  lemma {:induction false} StripLength(s: seq<byte>)
    ensures |Strip(s)| == |s| <==> SPACE !in s
    ensures SPACE !in s ==> Strip(s) == s
  {
    if s != [] {
      StripLength(s[1..]);
      assert s == [s[0]] + s[1..];
    }
  }

  lemma {:induction false} StripConcat(a: seq<byte>, b: seq<byte>)
    ensures Strip(a + b) == Strip(a) + Strip(b)
  {
    if a == [] {
      assert a + b == b;
    } else {
      assert (a + b)[1..] == a[1..] + b;
      StripConcat(a[1..], b);
    }
  }

  lemma {:induction false} StripSpaces(n: nat)
    ensures Strip(Spaces(n)) == []
  {
    if n > 0 {
      assert Spaces(n)[1..] == Spaces(n - 1);
      StripSpaces(n - 1);
    }
  }

  lemma {:induction false} StripUpper(s: seq<byte>)
    ensures LowerAll(Strip(UpperAll(s))) == LowerAll(Strip(s))
  {
    if s != [] {
      StripUpper(s[1..]);
      assert UpperAll(s)[1..] == UpperAll(s[1..]);
      LowerCons(Upper(s[0]), Strip(UpperAll(s[1..])));
      LowerCons(s[0], Strip(s[1..]));
    }
  }

  lemma LowerCons(c: byte, s: seq<byte>)
    ensures LowerAll([c] + s) == [Lower(c)] + LowerAll(s)
  {
  }

  /** Formatting a padded field gives back its characters, without spaces and in lower case. */
  lemma FieldReads(s: seq<byte>, n: nat)
    requires |s| <= n
    ensures LowerAll(Strip(PadTo(UpperAll(s), n))) == LowerAll(Strip(s))
  {
    hide *;
    var upper := UpperAll(s);
    PadIs(upper, n);
    StripConcat(upper, Spaces(n - |s|));
    StripSpaces(n - |s|);
    StripUpper(s);
    PlusEmpty(Strip(upper));
  }

  lemma PadIs(s: seq<byte>, n: nat)
    requires |s| <= n
    ensures PadTo(s, n) == s + Spaces(n - |s|)
  {
  }

  lemma PlusEmpty(s: seq<byte>)
    ensures s + [] == s
  {
  }

  lemma FormattedParts(s: seq<byte>)
    ensures var b, e := LowerAll(Strip(Cut(Base(s), 8))), LowerAll(Strip(Cut(Extension(s), 3)));
            LongName(ShortName(s)) == if e == [] then b else b + [DOT] + e
  {
    FieldReads(Cut(Base(s), 8), 8);
    FieldReads(Cut(Extension(s), 3), 3);
    var f := ShortName(s);
    assert f[..8] == PadTo(UpperAll(Cut(Base(s), 8)), 8) && f[8..] == PadTo(UpperAll(Cut(Extension(s), 3)), 3);
  }

  lemma Reassembled(s: seq<byte>)
    ensures LastDot(s, |s|) >= 0 ==> s == Base(s) + [DOT] + Extension(s)
    ensures LastDot(s, |s|) < 0 ==> s == Base(s) && Extension(s) == []
  {
    hide LastDot;
    var d := LastDot(s, |s|);
    if d >= 0 {
      SplitAt(s, d);
    }
  }

  lemma SplitAt<T>(s: seq<T>, d: nat)
    requires d < |s|
    ensures s == s[..d] + [s[d]] + s[d + 1..]
  {
  }

  lemma NoSpaceInParts(a: seq<byte>, b: seq<byte>)
    ensures SPACE !in a + [DOT] + b <==> SPACE !in a && SPACE !in b
  {
  }

  /** Formatting undoes creating, up to case, exactly for the names that 8.3 can hold. */
  lemma FormatUndoesCreateIff(s: seq<byte>)
    ensures LongName(ShortName(s)) == LowerAll(s) <==> FitsShort(s)
  {
    hide LastDot, ShortName, Strip, Base, Extension;
    FormattedParts(s);
    Reassembled(s);
    NoSpaceInParts(Base(s), Extension(s));
    var b, e := Cut(Base(s), 8), Cut(Extension(s), 3);
    StripLength(b);
    StripLength(e);
    if FitsShort(s) {
      assert b == Base(s) && e == Extension(s);
      if LastDot(s, |s|) >= 0 {
        assert LowerAll(s) == LowerAll(Base(s)) + [DOT] + LowerAll(Extension(s));
      }
    } else {
      assert |LongName(ShortName(s))| < |s|;
    }
  }

  // ---- collisions ----

  /** Without the blanks at its end. */
  function WithoutBlanks(s: seq<byte>): (r: seq<byte>)
    ensures r <= s && (r != [] ==> r[|r| - 1] != SPACE) && forall i :: |r| <= i < |s| ==> s[i] == SPACE
  {
    if s != [] && s[|s| - 1] == SPACE then WithoutBlanks(s[..|s| - 1]) else s
  }

  /** Two names are stored alike exactly when the first eight characters before their last dots and the first three
      behind are the same but for case and blanks at the end. */
  lemma CollideIff(a: seq<byte>, b: seq<byte>)
    ensures ShortName(a) == ShortName(b)
            <==> WithoutBlanks(UpperAll(Cut(Base(a), 8))) == WithoutBlanks(UpperAll(Cut(Base(b), 8)))
                 && WithoutBlanks(UpperAll(Cut(Extension(a), 3))) == WithoutBlanks(UpperAll(Cut(Extension(b), 3)))
  {
    hide LastDot, UpperAll, Cut, PadTo, WithoutBlanks;
    var x, y := UpperAll(Cut(Base(a), 8)), UpperAll(Cut(Base(b), 8));
    var p, q := UpperAll(Cut(Extension(a), 3)), UpperAll(Cut(Extension(b), 3));
    PaddedSame(x, y, 8);
    PaddedSame(p, q, 3);
    if ShortName(a) == ShortName(b) {
      assert ShortName(a)[..8] == PadTo(x, 8) && ShortName(b)[..8] == PadTo(y, 8);
      assert ShortName(a)[8..] == PadTo(p, 3) && ShortName(b)[8..] == PadTo(q, 3);
    }
  }

  lemma PaddedSame(x: seq<byte>, y: seq<byte>, n: nat)
    requires |x| <= n && |y| <= n
    ensures PadTo(x, n) == PadTo(y, n) <==> WithoutBlanks(x) == WithoutBlanks(y)
  {
    hide WithoutBlanks;
    PaddedBlanks(x, n);
    PaddedBlanks(y, n);
  }

  lemma PaddedBlanks(x: seq<byte>, n: nat)
    requires |x| <= n
    ensures WithoutBlanks(PadTo(x, n)) == WithoutBlanks(x)
    ensures |WithoutBlanks(x)| <= n && PadTo(x, n) == PadTo(WithoutBlanks(x), n)
  {
    hide WithoutBlanks;
    var w, p := WithoutBlanks(x), PadTo(x, n);
    BlanksUnique(p, w, WithoutBlanks(p));
    assert |p| == |PadTo(w, n)| == n;
    forall i | 0 <= i < n
      ensures p[i] == PadTo(w, n)[i]
    {
    }
  }

  lemma BlanksUnique(p: seq<byte>, w: seq<byte>, v: seq<byte>)
    requires w <= p && (w != [] ==> w[|w| - 1] != SPACE) && forall i :: |w| <= i < |p| ==> p[i] == SPACE
    requires v <= p && (v != [] ==> v[|v| - 1] != SPACE) && forall i :: |v| <= i < |p| ==> p[i] == SPACE
    ensures v == w
  {
    assert v == p[..|v|] && w == p[..|w|];
  }

  /** The eleven bytes of a name too long for 8.3. */
  lemma LongNameExample()
    ensures ShortName(Text("longname1.text")) == Text("LONGNAMETEX")
  {
    hide LastDot, UpperAll;
    var s := Text("longname1.text");
    assert s[9] == DOT && forall k :: 9 < k < |s| ==> s[k] != DOT;
    assert LastDot(s, |s|) == 9;
    assert Base(s) == Text("longname1") && Extension(s) == Text("text");
    assert Cut(Base(s), 8) == Text("longname") && Cut(Extension(s), 3) == Text("tex");
    UpperExample();
  }

  lemma UpperExample()
    ensures UpperAll(Text("longname")) == Text("LONGNAME") && UpperAll(Text("tex")) == Text("TEX")
    ensures Text("LONGNAME") + Text("TEX") == Text("LONGNAMETEX")
  {
  }

  const CAPITALS := "ABCDEFGHIJKLMNOPQRSTUVWXYZ"
  const SMALLS := "abcdefghijklmnopqrstuvwxyz"

  lemma LettersPair(i: nat)
    requires i < 26
    ensures CAPITALS[i] as int == 0x41 + i && SMALLS[i] as int == 0x61 + i
  {
  }

  /** Case is that of the 26 ASCII letters; every other byte is as it is in both. */
  lemma LettersChange(c: byte)
    ensures forall i :: 0 <= i < 26 ==> Lower(CAPITALS[i] as int) == SMALLS[i] as int
                                        && Upper(SMALLS[i] as int) == CAPITALS[i] as int
    ensures (forall i :: 0 <= i < 26 ==> CAPITALS[i] as int != c) ==> Lower(c) == c
    ensures (forall i :: 0 <= i < 26 ==> SMALLS[i] as int != c) ==> Upper(c) == c
  {
    hide CAPITALS, SMALLS;
    LetterCount();
    forall i: nat | i < 26
      ensures CAPITALS[i] as int == 0x41 + i && SMALLS[i] as int == 0x61 + i
    {
      LettersPair(i);
    }
    if 0x41 <= c <= 0x5A {
      assert CAPITALS[c - 0x41] as int == c;
    }
    if 0x61 <= c <= 0x7A {
      assert SMALLS[c - 0x61] as int == c;
    }
  }

  lemma LetterCount()
    ensures |CAPITALS| == 26 == |SMALLS|
  {
  }
}
