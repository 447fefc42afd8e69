/** Path normalisation and the choice of a mount (kernel/fs/vfs.cpp:133-190, 233-296). */
module Paths {
  import opened Bytes

  const SLASH: byte := 0x2F
  const BACKSLASH: byte := 0x5C
  const COLON: byte := 0x3A
  const COMBINED := 256

  predicate IsLetter(c: byte) { 0x61 <= c <= 0x7A || 0x41 <= c <= 0x5A }

  function ToSlash(c: byte): byte { if c == BACKSLASH then SLASH else c }

  /** The path starts with a drive letter and a colon. */
  predicate HasDrive(p: seq<byte>) { |p| >= 2 && IsLetter(p[0]) && p[1] == COLON }

  predicate IsAbsolute(p: seq<byte>) { p != [] && (p[0] == SLASH || p[0] == BACKSLASH) }

  /** The current directory with a slash at its end. */
  function Base(cwd: seq<byte>): seq<byte> {
    if cwd != [] && cwd[|cwd| - 1] != SLASH then cwd + [SLASH] else cwd
  }

  /** The bytes the copying loop reads.  A relative path is put behind the current directory in a 256-byte buffer,
      of which the first 255 bytes are filled. */
  function Source(p: seq<byte>, cwd: seq<byte>): seq<byte> {
    if HasDrive(p) then p[2..]
    else if IsAbsolute(p) then p
    else
      var full := Base(cwd) + p;
      full[..Min(|full|, COMBINED - 1)]
  }

  /** The result does not depend on the last byte of that buffer, which is only set when the directory and its slash
      take all of the rest: the path ends before it, or the output is full before it. */
  predicate Determined(p: seq<byte>, cwd: seq<byte>, maxLen: nat)
    requires maxLen >= 4
  {
    || HasDrive(p) || IsAbsolute(p)
    || (|cwd| < COMBINED - 1
        && (|Base(cwd) + p| < COMBINED - 1 || |Base(cwd)| == COMBINED - 1 || |Squash(Source(p, cwd), Prefix(p),
        maxLen - 1)| == maxLen - 1))
  }

  function Prefix(p: seq<byte>): (r: seq<byte>)
    ensures |r| == 1 || |r| == 3
  {
    if HasDrive(p) then [Upper(p[0]), COLON, SLASH] else [SLASH]
  }

  /** The copying loop: backslashes become slashes, a slash after a slash is dropped, and copying stops when `room`
      bytes are out. */
  function Squash(src: seq<byte>, out: seq<byte>, room: nat): (r: seq<byte>)
    requires out != []
    ensures out <= r && (|out| <= room ==> |r| <= room)
    decreases |src|
  {
    if src == [] || |out| >= room then out
    else
      var c := ToSlash(src[0]);
      if c == SLASH && out[|out| - 1] == SLASH then Squash(src[1..], out, room) else Squash(src[1..], out + [c], room)
  }

  function Trim(out: seq<byte>, root: nat): seq<byte> {
    if |out| > root && out[|out| - 1] == SLASH then out[..|out| - 1] else out
  }

  function Normalize(p: seq<byte>, cwd: seq<byte>, maxLen: nat): seq<byte>
    requires maxLen >= 4
  {
    Trim(Squash(Source(p, cwd), Prefix(p), maxLen - 1), |Prefix(p)|)
  }

  // ---- the C function ----

  /** vfs_normalize_path into a buffer of `maxLen` bytes. */
  method NormalizePath(p: seq<byte>, cwd: seq<byte>, outPath: array<byte>, maxLen: nat) returns (n: nat)
    requires 4 <= maxLen <= outPath.Length && 0 !in p && 0 !in cwd
    requires Determined(p, cwd, maxLen)
    modifies outPath
    ensures n < maxLen && outPath[..n] == Normalize(p, cwd, maxLen) && outPath[n] == 0
    ensures outPath[n + 1..] == old(outPath[n + 1..])
  {
    hide Squash, Source, HasDrive, IsAbsolute, Trim, Base;
    var src, drive := SourceAndDrive(p, cwd);
    var outIdx := 0;
    if drive != 0 {
      outPath[0], outPath[1] := drive, COLON;
      outIdx := 2;
    }
    outPath[outIdx] := SLASH;
    outIdx := outIdx + 1;
    assert outPath[..outIdx] == Prefix(p);
    outIdx := CopyPath(src, outPath, outIdx, maxLen - 1);
    n := TrimPath(outPath, outIdx, if drive != 0 then 3 else 1);
  }

  /** Lines 185-189: drops a slash at the end and terminates the string. */
  method TrimPath(outPath: array<byte>, outIdx: nat, root: nat) returns (n: nat)
    requires 1 <= root <= outIdx < outPath.Length
    modifies outPath
    ensures root <= n && outIdx - 1 <= n <= outIdx && outPath[..n] == Trim(old(outPath[..outIdx]), root)
            && outPath[n] == 0
    ensures forall k :: n < k < outPath.Length ==> outPath[k] == old(outPath[k])
  {
    n := outIdx;
    if outIdx > root && outPath[outIdx - 1] == SLASH { n := n - 1; }
    outPath[n] := 0;
  }

  /** Lines 139-162: strips a drive, or puts the current directory in front of a relative path. */
  method SourceAndDrive(p: seq<byte>, cwd: seq<byte>) returns (src: seq<byte>, drive: byte)
    requires 0 !in p && (!HasDrive(p) && !IsAbsolute(p) ==> |cwd| < COMBINED - 1)
    ensures src == Source(p, cwd) && (drive != 0 <==> HasDrive(p)) && (drive != 0 ==> drive == Upper(p[0]))
  {
    src, drive := p, 0;
    if |p| >= 1 && IsLetter(p[0]) {
      if |p| >= 2 && p[1] == COLON {
        drive := Upper(p[0]);
        src := p[2..];
      }
    }
    if drive == 0 && (src == [] || (src[0] != SLASH && src[0] != BACKSLASH)) {
      var combined := cwd;
      if |cwd| > 0 && combined[|cwd| - 1] != SLASH { combined := combined + [SLASH]; }
      var n := Min(|src|, COMBINED - 1 - |combined|);
      src := combined + src[..n];
    }
  }

  /** The loop at lines 172-183. */
  method CopyPath(src: seq<byte>, outPath: array<byte>, first: nat, room: nat) returns (outIdx: nat)
    requires 1 <= first <= room < outPath.Length
    modifies outPath
    ensures first <= outIdx <= room && outPath[..outIdx] == Squash(src, old(outPath[..first]), room)
    ensures forall k :: outIdx <= k < outPath.Length ==> outPath[k] == old(outPath[k])
  {
    hide Squash, ToSlash;
    ghost var start := outPath[..first];
    outIdx := first;
    var i := 0;
    assert src[0..] == src;
    while i < |src| && outIdx < room
      invariant 0 <= i <= |src| && first <= outIdx <= room
      invariant Squash(src[i..], outPath[..outIdx], room) == Squash(src, start, room)
      invariant forall k :: outIdx <= k < outPath.Length ==> outPath[k] == old(outPath[k])
    {
      SquashNext(src, i, outPath[..outIdx], room);
      var c := ToSlash(src[i]);
      i := i + 1;
      if c == SLASH && outPath[outIdx - 1] == SLASH { continue; }
      ghost var now := outPath[..outIdx];
      outPath[outIdx] := c;
      outIdx := outIdx + 1;
      assert outPath[..outIdx] == now + [c];
    }
    SquashEnds(src, i, outPath[..outIdx], room);
  }

  lemma SquashNext(src: seq<byte>, i: nat, out: seq<byte>, room: nat)
    requires i < |src| && out != [] && |out| < room
    ensures var c := ToSlash(src[i]);
            Squash(src[i..], out, room)
            == if c == SLASH && out[|out| - 1] == SLASH then Squash(src[i + 1..], out, room)
                else Squash(src[i + 1..], out + [c], room)
  {
    assert src[i..][1..] == src[i + 1..];
  }

  lemma SquashEnds(src: seq<byte>, i: nat, out: seq<byte>, room: nat)
    requires i <= |src| && out != [] && (i == |src| || |out| >= room)
    ensures Squash(src[i..], out, room) == out
  {
  }

  // ---- normal paths ----

  /** No backslash and no doubled slash. */
  ghost predicate Clean(r: seq<byte>) {
    && (forall i :: 0 <= i < |r| ==> r[i] != BACKSLASH)
    && (forall i :: 0 <= i < |r| - 1 ==> !(r[i] == SLASH && r[i + 1] == SLASH))
  }

  /** Rooted at `/` or `X:/`, clean, and without a slash at the end unless it is the root. */
  ghost predicate IsNormal(r: seq<byte>) {
    && Clean(r)
    && var root := if HasDrive(r) then 3 else 1;
       |r| >= root && r[root - 1] == SLASH && (HasDrive(r) ==> Upper(r[0]) == r[0])
           && (|r| > root ==> r[|r| - 1] != SLASH)
  }

  lemma {:induction false} SquashClean(src: seq<byte>, out: seq<byte>, room: nat)
    requires out != [] && Clean(out)
    ensures Clean(Squash(src, out, room))
    decreases |src|
  {
    if src != [] && |out| < room {
      var c := ToSlash(src[0]);
      if c == SLASH && out[|out| - 1] == SLASH {
        SquashClean(src[1..], out, room);
      } else {
        CleanPlus(out, c);
        SquashClean(src[1..], out + [c], room);
      }
    }
  }

  lemma CleanPlus(out: seq<byte>, c: byte)
    requires out != [] && Clean(out) && c != BACKSLASH && !(c == SLASH && out[|out| - 1] == SLASH)
    ensures Clean(out + [c])
  {
  }

  lemma PrefixIs(p: seq<byte>)
    ensures Clean(Prefix(p)) && Prefix(p)[|Prefix(p)| - 1] == SLASH
            && HasDrive(Prefix(p)) == HasDrive(p) == (|Prefix(p)| == 3)
    ensures HasDrive(p) ==> Upper(Prefix(p)[0]) == Prefix(p)[0]
  {
  }

  /** Every output is normal and fits the buffer. */
  lemma NormalizeIsNormal(p: seq<byte>, cwd: seq<byte>, maxLen: nat)
    requires maxLen >= 4
    ensures var n := Normalize(p, cwd, maxLen);
            IsNormal(n) && |n| < maxLen && Prefix(p) <= n && HasDrive(n) == HasDrive(p)
  {
    hide Squash, Source;
    var pre := Prefix(p);
    PrefixIs(p);
    var out := Squash(Source(p, cwd), pre, maxLen - 1);
    SquashClean(Source(p, cwd), pre, maxLen - 1);
    assert pre <= out;
    if |out| > |pre| && out[|out| - 1] == SLASH {
      assert out[..|out| - 1][|out| - 2] != SLASH || |out| - 1 == |pre|;
    }
  }

  lemma {:induction false} SquashCopies(src: seq<byte>, out: seq<byte>, room: nat)
    requires out != [] && Clean(out + src) && |out| + |src| <= room
    ensures Squash(src, out, room) == out + src
    decreases |src|
  {
    if src == [] {
      assert out + src == out;
    } else {
      assert (out + src)[|out|] == src[0] && (out + src)[|out| - 1] == out[|out| - 1];
      assert (out + [src[0]]) + src[1..] == out + src;
      SquashCopies(src[1..], out + [src[0]], room);
    }
  }

  lemma NormalSource(n: seq<byte>, cwd: seq<byte>)
    requires IsNormal(n)
    ensures var pre := Prefix(n); |pre| <= |n| && n == pre + n[|pre|..] && Source(n, cwd) == [SLASH] + n[|pre|..]
  {
    hide Clean;
    var pre := Prefix(n);
    assert n == pre + n[|pre|..];
    assert Source(n, cwd) == [SLASH] + n[|pre|..];
  }

  /** The slash after the prefix is dropped and the rest copied. */
  lemma SquashRest(pre: seq<byte>, rest: seq<byte>, room: nat)
    requires pre != [] && pre[|pre| - 1] == SLASH && Clean(pre + rest) && |pre + rest| <= room
    ensures Squash([SLASH] + rest, pre, room) == pre + rest
  {
    hide Clean;
    var src := [SLASH] + rest;
    assert src[1..] == rest;
    if |pre| < room {
      SquashCopies(rest, pre, room);
    } else {
      assert pre + rest == pre;
    }
  }

  /** A normal path that fits is left alone, whatever the current directory. */
  lemma NormalIsFixed(n: seq<byte>, cwd: seq<byte>, maxLen: nat)
    requires maxLen >= 4 && IsNormal(n) && |n| < maxLen
    ensures Normalize(n, cwd, maxLen) == n
  {
    hide Squash, Source, Clean;
    NormalSource(n, cwd);
    PrefixIs(n);
    SquashRest(Prefix(n), n[|Prefix(n)|..], maxLen - 1);
  }

  /** Normalising twice is normalising once, for every path, every buffer of at least four bytes and every current
      directory. */
  lemma NormalizeIdempotent(p: seq<byte>, cwd: seq<byte>, cwd': seq<byte>, maxLen: nat)
    requires maxLen >= 4
    ensures Normalize(Normalize(p, cwd, maxLen), cwd', maxLen) == Normalize(p, cwd, maxLen)
  {
    hide Normalize;
    NormalizeIsNormal(p, cwd, maxLen);
    NormalIsFixed(Normalize(p, cwd, maxLen), cwd', maxLen);
  }

  /** A path is a fixed point exactly when it is normal and fits. */
  lemma FixedIffNormal(p: seq<byte>, cwd: seq<byte>, maxLen: nat)
    requires maxLen >= 4
    ensures Normalize(p, cwd, maxLen) == p <==> IsNormal(p) && |p| < maxLen
  {
    hide Normalize;
    NormalizeIsNormal(p, cwd, maxLen);
    if IsNormal(p) && |p| < maxLen {
      NormalIsFixed(p, cwd, maxLen);
    }
  }

  // ---- components ----

  function Whole(part: seq<byte>): seq<seq<byte>> { if part == [] then [] else [part] }

  /** The non-empty parts between slashes; `cur` is the part being read. */
  function Parts(p: seq<byte>, cur: seq<byte>): seq<seq<byte>>
    decreases |p|
  {
    if p == [] then Whole(cur)
    else if p[0] == SLASH then Whole(cur) + Parts(p[1..], [])
    else Parts(p[1..], cur + [p[0]])
  }

  function Components(p: seq<byte>): seq<seq<byte>> { Parts(p, []) }

  lemma {:induction false} PartsAcross(a: seq<byte>, b: seq<byte>, cur: seq<byte>)
    requires b == [] || b[0] == SLASH
    ensures Parts(a + b, cur) == Parts(a, cur) + Parts(b, [])
    decreases |a|
  {
    if a == [] {
      assert a + b == b;
      if b != [] {
        assert Parts(b, cur) == Whole(cur) + Parts(b[1..], []);
        assert Parts(b, []) == [] + Parts(b[1..], []);
      }
    } else {
      assert (a + b)[1..] == a[1..] + b;
      if a[0] == SLASH {
        PartsAcross(a[1..], b, []);
      } else {
        PartsAcross(a[1..], b, cur + [a[0]]);
      }
    }
  }

  /** A path from its components. */
  function Join(cs: seq<seq<byte>>): seq<byte> { if cs == [] then [] else [SLASH] + cs[0] + Join(cs[1..]) }

  lemma {:induction false} JoinConcat(a: seq<seq<byte>>, b: seq<seq<byte>>)
    ensures Join(a + b) == Join(a) + Join(b)
  {
    if a == [] {
      assert a + b == b;
    } else {
      assert (a + b)[1..] == a[1..] + b;
      JoinConcat(a[1..], b);
    }
  }

  /** Splitting and joining a clean stretch that does not end in a slash. */
  lemma {:induction false} JoinParts(p: seq<byte>, cur: seq<byte>)
    requires Clean(p) && (p != [] ==> p[|p| - 1] != SLASH) && (cur == [] ==> p != [] && p[0] != SLASH)
    ensures Join(Parts(p, cur)) == [SLASH] + cur + p
    decreases |p|
  {
    if p == [] {
      assert Join(Whole(cur)) == [SLASH] + cur + Join([]);
      assert [SLASH] + cur + [] == [SLASH] + cur + p;
    } else if p[0] == SLASH {
      JoinConcat(Whole(cur), Parts(p[1..], []));
      assert p == [p[0]] + p[1..];
      assert Clean(p[1..]);
      JoinParts(p[1..], []);
      assert Whole(cur)[1..] == [];
      assert Join(Whole(cur)) == [SLASH] + cur;
    } else {
      assert Clean(p[1..]);
      JoinParts(p[1..], cur + [p[0]]);
    }
  }

  /** A normal path without drive is its components joined again; the root has none. */
  lemma ComponentsJoin(p: seq<byte>)
    requires IsNormal(p) && !HasDrive(p)
    ensures if p == [SLASH] then Components(p) == [] else Join(Components(p)) == p
  {
    var rest := p[1..];
    assert p == [SLASH] + rest;
    assert Parts(p, []) == Whole([]) + Parts(rest, []) == Parts(rest, []);
    if rest != [] {
      assert rest[0] == p[1] && rest[|rest| - 1] == p[|p| - 1];
      JoinParts(rest, []);
      assert [SLASH] + [] + rest == p;
    }
  }

  // ---- what normalising is for ----

  function Slashes(p: seq<byte>): (r: seq<byte>)
    ensures |r| == |p|
  {
    seq(|p|, i requires 0 <= i < |p| => if p[i] == BACKSLASH then SLASH else p[i])
  }

  /** The components a path stands for: its own, behind those of the current directory unless it names a drive or starts
      with a slash of either kind. */
  function Meant(p: seq<byte>, cwd: seq<byte>): seq<seq<byte>> {
    if HasDrive(p) then Components(Slashes(p[2..]))
    else if p != [] && p[0] in {SLASH, BACKSLASH} then Components(Slashes(p))
    else Components(Slashes(cwd)) + Components(Slashes(p))
  }

  /** A path with these components, with the drive of `p` in upper case. */
  function Written(p: seq<byte>, cs: seq<seq<byte>>): seq<byte> {
    var drive := if HasDrive(p) then [Upper(p[0]), COLON] else [];
    drive + if cs == [] then [SLASH] else Join(cs)
  }

  function FullPath(p: seq<byte>, cwd: seq<byte>): seq<byte> { Written(p, Meant(p, cwd)) }

  /** As much of a relative path as fits behind the current directory and its slash in the 256-byte buffer. */
  function Fitting(p: seq<byte>, cwd: seq<byte>): seq<byte>
    requires |cwd| < COMBINED - 1
  {
    if HasDrive(p) || (p != [] && p[0] in {SLASH, BACKSLASH}) then p
    else p[..Min(|p|, COMBINED - 1 - |cwd| - if cwd == [] || cwd[|cwd| - 1] == SLASH then 0 else 1)]
  }

  /** What the copying loop would put out with room for all of it. */
  function Squeezed(src: seq<byte>, afterSlash: bool): seq<byte> {
    if src == [] then []
    else
      var c := ToSlash(src[0]);
      if c == SLASH && afterSlash then Squeezed(src[1..], true) else [c] + Squeezed(src[1..], c == SLASH)
  }

  function Upto<T>(s: seq<T>, n: nat): seq<T> { if n <= |s| then s[..n] else s }

  lemma {:induction false} SquashIsPrefix(src: seq<byte>, out: seq<byte>, room: nat)
    requires out != [] && |out| <= room
    ensures Squash(src, out, room) == Upto(out + Squeezed(src, out[|out| - 1] == SLASH), room)
    decreases |src|
  {
    hide ToSlash, Upto;
    var slash := out[|out| - 1] == SLASH;
    if src == [] || |out| == room {
      AlreadyFull(out, Squeezed(src, slash), room);
    } else {
      var c := ToSlash(src[0]);
      if c == SLASH && slash {
        SquashIsPrefix(src[1..], out, room);
      } else {
        SquashIsPrefix(src[1..], out + [c], room);
        Regroup(out, c, Squeezed(src[1..], c == SLASH));
      }
    }
  }

  lemma AlreadyFull(out: seq<byte>, rest: seq<byte>, room: nat)
    requires rest == [] || |out| == room
    requires |out| <= room
    ensures Upto(out + rest, room) == out
  {
  }

  lemma Regroup(out: seq<byte>, c: byte, rest: seq<byte>)
    ensures (out + [c])[|out|] == c && (out + [c]) + rest == out + ([c] + rest)
  {
  }

  lemma {:induction false} SqueezedPrefix(src: seq<byte>, n: nat, afterSlash: bool)
    requires n <= |src|
    ensures Squeezed(src[..n], afterSlash) <= Squeezed(src, afterSlash)
  {
    if n > 0 {
      var c := ToSlash(src[0]);
      assert src[..n][0] == src[0] && src[..n][1..] == src[1..][..n - 1];
      SqueezedPrefix(src[1..], n - 1, c == SLASH);
    }
  }

  /** `x` is the path with these components, with or without a slash at its end. */
  ghost predicate Spells(x: seq<byte>, cs: seq<seq<byte>>) {
    x != [] && x == Join(cs) + if x[|x| - 1] == SLASH then [SLASH] else []
  }

  lemma {:induction false} SqueezedSpells(src: seq<byte>, cur: seq<byte>)
    requires cur != [] ==> cur[|cur| - 1] != SLASH
    ensures Spells([SLASH] + cur + Squeezed(src, cur == []), Parts(Slashes(src), cur))
    decreases |src|
  {
    var s := Slashes(src);
    var x := [SLASH] + cur + Squeezed(src, cur == []);
    if src == [] {
      assert x == [SLASH] + cur;
      assert Whole(cur)[Min(1, |Whole(cur)|)..] == [];
      assert Join([]) == [];
      if cur != [] {
        assert Join(Whole(cur)) == [SLASH] + cur + Join(Whole(cur)[1..]);
        assert x[|x| - 1] == cur[|cur| - 1];
      }
    } else {
      var c := ToSlash(src[0]);
      assert s[0] == c && s[1..] == Slashes(src[1..]);
      if c != SLASH {
        SqueezedSpells(src[1..], cur + [c]);
        assert x == [SLASH] + (cur + [c]) + Squeezed(src[1..], false);
      } else if cur == [] {
        SqueezedSpells(src[1..], []);
        assert Whole([]) + Parts(s[1..], []) == Parts(s[1..], []);
      } else {
        SqueezedSpells(src[1..], []);
        var rest := [SLASH] + [] + Squeezed(src[1..], true);
        assert x == [SLASH] + cur + rest && x[|x| - 1] == rest[|rest| - 1];
        JoinConcat([cur], Parts(s[1..], []));
        JoinOne(cur);
      }
    }
  }

  lemma JoinOne(part: seq<byte>)
    ensures Join([part]) == [SLASH] + part
  {
    assert [part][1..] == [];
    assert Join([]) == [];
    assert [SLASH] + part + [] == [SLASH] + part;
  }

  /** A slash between two paths separates their components. */
  lemma ComponentsAcross(a: seq<byte>, b: seq<byte>)
    ensures Components(a + [SLASH] + b) == Components(a) + Components(b)
  {
    assert a + [SLASH] + b == a + ([SLASH] + b);
    PartsAcross(a, [SLASH] + b, []);
    assert ([SLASH] + b)[1..] == b;
    assert Whole([]) + Parts(b, []) == Parts(b, []);
  }

  lemma BaseComponents(cwd: seq<byte>, p: seq<byte>)
    ensures Components(Slashes(Base(cwd) + p)) == Components(Slashes(cwd)) + Components(Slashes(p))
  {
    hide Components;
    if cwd == [] {
      assert Base(cwd) + p == p && Slashes([]) == [];
      NoComponents();
    } else if cwd[|cwd| - 1] == SLASH {
      var a := Slashes(cwd[..|cwd| - 1]);
      assert Slashes(Base(cwd) + p) == a + [SLASH] + Slashes(p);
      assert Slashes(cwd) == a + [SLASH] + [];
      ComponentsAcross(a, Slashes(p));
      ComponentsAcross(a, []);
      NoComponents();
    } else {
      assert Slashes(Base(cwd) + p) == Slashes(cwd) + [SLASH] + Slashes(p);
      ComponentsAcross(Slashes(cwd), Slashes(p));
    }
  }

  lemma NoComponents()
    ensures Components([]) == []
  {
  }

  /** Where the drive's colon ends, and the root after it. */
  lemma SourceSpells(p: seq<byte>, cwd: seq<byte>)
    requires |cwd| < COMBINED - 1
    ensures Components(Slashes(Source(p, cwd))) == Meant(Fitting(p, cwd), cwd)
    ensures HasDrive(Fitting(p, cwd)) == HasDrive(p) && (HasDrive(p) ==> Fitting(p, cwd) == p)
  {
    hide Components;
    if !HasDrive(p) && !IsAbsolute(p) {
      var fit := Fitting(p, cwd);
      assert Source(p, cwd) == Base(cwd) + fit;
      assert fit != [] ==> fit[0] == p[0];
      BaseComponents(cwd, fit);
    }
  }

  /** All the copying loop puts out with room for it is the path with the components it reads, or that and a slash. */
  lemma WholeOutput(p: seq<byte>, src: seq<byte>)
    ensures var full, out := Written(p, Components(Slashes(src))), Prefix(p) + Squeezed(src, true);
            |full| >= |Prefix(p)| && if |full| == |Prefix(p)| || full[|full| - 1] != SLASH
                                     then out == full || out == full + [SLASH]
                                     else out == full + [SLASH]
  {
    hide Components, Squeezed;
    SqueezedSpells(src, []);
    var x := [SLASH] + [] + Squeezed(src, true);
    var drive := if HasDrive(p) then [Upper(p[0]), COLON] else [];
    assert Prefix(p) + Squeezed(src, true) == drive + x;
    WholePath(Slashes(src));
    if Components(Slashes(src)) == [] {
      assert x == [] + [SLASH];
    }
  }

  lemma WholePath(p: seq<byte>)
    ensures Components(p) == Parts(p, [])
  {
  }

  /** What normalising gives: the path meant, its components joined by single slashes, or as much of it as fits, less a
      slash at its end. */
  lemma NormalizeIs(p: seq<byte>, cwd: seq<byte>, maxLen: nat)
    requires maxLen >= 4 && |cwd| < COMBINED - 1
    ensures var full := FullPath(Fitting(p, cwd), cwd);
            Normalize(p, cwd, maxLen)
            == if |full| < maxLen then full else Trim(full[..maxLen - 1], if HasDrive(p) then 3 else 1)
  {
    hide Components, Squash, Squeezed, Source, Fitting, Meant, Join;
    var full, src, pre := FullPath(Fitting(p, cwd), cwd), Source(p, cwd), Prefix(p);
    PrefixIs(p);
    SourceSpells(p, cwd);
    SquashIsPrefix(src, pre, maxLen - 1);
    WholeOutput(p, src);
    var out := pre + Squeezed(src, true);
    if out == full + [SLASH] {
      NoDoubledEnd(src, pre, |out|, full);
    }
  }

  lemma NoDoubledEnd(src: seq<byte>, pre: seq<byte>, n: nat, full: seq<byte>)
    requires pre != [] && pre[|pre| - 1] == SLASH && Clean(pre) && n == |pre + Squeezed(src, true)|
    requires pre + Squeezed(src, true) == full + [SLASH]
    ensures full != [] ==> full[|full| - 1] != SLASH
  {
    hide Squeezed, Squash;
    SquashIsPrefix(src, pre, n);
    SquashClean(src, pre, n);
    var out := pre + Squeezed(src, true);
    assert out[..n] == out;
    assert full != [] ==> out[|full| - 1] == full[|full| - 1] && out[|full|] == SLASH;
  }

  /** What the copying loop would read if the combining buffer had room for all of it. */
  function Uncut(p: seq<byte>, cwd: seq<byte>): seq<byte> {
    if HasDrive(p) || IsAbsolute(p) then Source(p, cwd) else Base(cwd) + p
  }

  lemma UncutSpells(p: seq<byte>, cwd: seq<byte>)
    ensures |Source(p, cwd)| <= |Uncut(p, cwd)| && Uncut(p, cwd)[..|Source(p, cwd)|] == Source(p, cwd)
    ensures Components(Slashes(Uncut(p, cwd))) == Meant(p, cwd)
  {
    hide Components, Slashes, Base;
    if !HasDrive(p) && !IsAbsolute(p) {
      BaseComponents(cwd, p);
    }
  }

  /** Whatever is cut off, by either buffer, what comes out starts the full path. */
  lemma NormalizeIsPrefix(p: seq<byte>, cwd: seq<byte>, maxLen: nat)
    requires maxLen >= 4 && |cwd| < COMBINED - 1
    ensures Normalize(p, cwd, maxLen) <= FullPath(p, cwd)
  {
    hide Components, Squeezed, Written, Normalize, Meant, Slashes, Fitting, Source, Uncut, Prefix;
    NormalizeIs(p, cwd, maxLen);
    SourceSpells(p, cwd);
    var src, all, pre := Source(p, cwd), Uncut(p, cwd), Prefix(p);
    UncutSpells(p, cwd);
    SqueezedPrefix(all, |src|, true);
    WholeOutput(p, src);
    WholeOutput(p, all);
    DriveOnly(p, Fitting(p, cwd), Meant(Fitting(p, cwd), cwd));
    PrefixOfPath(Written(p, Components(Slashes(src))), Written(p, Components(Slashes(all))), pre + Squeezed(src, true),
                 pre + Squeezed(all, true), |pre|);
  }

  /** Two outputs, one the start of the other, each its path or that and a slash. */
  lemma PrefixOfPath(a: seq<byte>, b: seq<byte>, x: seq<byte>, y: seq<byte>, root: nat)
    requires x <= y && root <= |a| && root <= |b| && (y == b || y == b + [SLASH]) && (x == a || x == a + [SLASH])
    requires |a| > root && a[|a| - 1] == SLASH ==> x == a + [SLASH]
    ensures a <= b
  {
    assert a <= y;
    assert |a| > |b| ==> a == b + [SLASH];
  }

  lemma DriveOnly(p: seq<byte>, q: seq<byte>, cs: seq<seq<byte>>)
    requires HasDrive(q) == HasDrive(p) && (HasDrive(p) ==> q == p)
    ensures Written(q, cs) == Written(p, cs)
  {
  }

  /** Components are not empty and hold no slash; joined and taken apart again they are the same. */
  lemma {:induction false} JoinedParts(cs: seq<seq<byte>>)
    requires forall i :: 0 <= i < |cs| ==> cs[i] != [] && SLASH !in cs[i]
    ensures Components(Join(cs)) == cs
  {
    if cs != [] {
      JoinedParts(cs[1..]);
      var rest := Join(cs[1..]);
      JoinStart(cs[1..]);
      PartsAcross(cs[0], rest, []);
      OnePart(cs[0], []);
      assert Join(cs) == [SLASH] + (cs[0] + rest);
      assert ([SLASH] + (cs[0] + rest))[1..] == cs[0] + rest;
      assert [] + cs[0] == cs[0] && cs == [cs[0]] + cs[1..];
      assert Parts(cs[0] + rest, []) == cs;
      assert Whole([]) + cs == cs;
    }
  }

  lemma {:induction false} OnePart(part: seq<byte>, cur: seq<byte>)
    requires SLASH !in part
    ensures Parts(part, cur) == Whole(cur + part)
    decreases |part|
  {
    if part == [] {
      assert cur + part == cur;
    } else {
      OnePart(part[1..], cur + [part[0]]);
      assert cur + [part[0]] + part[1..] == cur + part;
    }
  }

  lemma {:induction false} PartsClean(p: seq<byte>, cur: seq<byte>)
    requires SLASH !in cur
    ensures forall i :: 0 <= i < |Parts(p, cur)| ==> Parts(p, cur)[i] != [] && SLASH !in Parts(p, cur)[i]
    decreases |p|
  {
    if p != [] {
      PartsClean(p[1..], if p[0] == SLASH then [] else cur + [p[0]]);
    }
  }

  /** Where nothing is cut the components of the output are those meant. */
  lemma NormalizedComponents(p: seq<byte>, cwd: seq<byte>, maxLen: nat)
    requires maxLen >= 4 && |cwd| < COMBINED - 1 && Fitting(p, cwd) == p && |FullPath(p, cwd)| < maxLen
    ensures Normalize(p, cwd, maxLen) == FullPath(p, cwd)
    ensures var n := Normalize(p, cwd, maxLen);
            Components(if HasDrive(p) then n[Min(2, |n|)..] else n) == Meant(p, cwd)
  {
    hide Normalize, Components, Fitting;
    NormalizeIs(p, cwd, maxLen);
    MeantClean(p, cwd);
    var cs, n := Meant(p, cwd), FullPath(p, cwd);
    JoinedParts(cs);
    var tail := if cs == [] then [SLASH] else Join(cs);
    assert (if HasDrive(p) then n[Min(2, |n|)..] else n) == tail;
    RootComponents();
  }

  lemma RootComponents()
    ensures Components([SLASH]) == [] && Join([]) == []
  {
    assert [SLASH][1..] == [];
    assert Parts([SLASH], []) == Whole([]) + Parts([], []);
  }

  lemma MeantClean(p: seq<byte>, cwd: seq<byte>)
    ensures forall i :: 0 <= i < |Meant(p, cwd)| ==> Meant(p, cwd)[i] != [] && SLASH !in Meant(p, cwd)[i]
  {
    hide Parts;
    PartsClean(Slashes(p), []);
    PartsClean(Slashes(cwd), []);
    if HasDrive(p) {
      PartsClean(Slashes(p[2..]), []);
    }
  }

  /** A relative path. */
  lemma RelativeExample()
    ensures Normalize(Text("foo"), Text("/home"), 256) == Text("/home/foo")
  {
    hide Squash;
    var root := [SLASH];
    assert Source(Text("foo"), Text("/home")) == root + Text("home/foo")
        && root + Text("home/foo") == Text("/home/foo");
    SquashRest(root, Text("home/foo"), 255);
  }

  /** One with a drive. */
  lemma DriveExample()
    ensures Normalize(Text("c:x"), Text("/home"), 256) == Text("C:/x")
  {
    hide Squash;
    var drive := [0x43, COLON, SLASH];
    assert Source(Text("c:x"), Text("/home")) == Text("x") && Prefix(Text("c:x")) == drive;
    SquashCopies(Text("x"), drive, 255);
    assert drive + Text("x") == Text("C:/x");
  }

  /** One with backslashes. */
  lemma BackslashExample()
    ensures Normalize(Text("\\a\\"), Text("/home"), 256) == Text("/a")
  {
    hide Squash;
    var root := [SLASH];
    var p := Text("\\a\\");
    assert p[0..] == p && Source(p, Text("/home")) == p;
    SquashNext(p, 0, root, 255);
    SquashNext(p, 1, root, 255);
    SquashNext(p, 2, Text("/a"), 255);
    SquashEnds(p, 3, Text("/a/"), 255);
    assert root + [0x61] == Text("/a") && Text("/a") + root == Text("/a/") && Text("/a/")[..2] == Text("/a");
  }

  // ---- mounts ----

  datatype Mount = Mount(inUse: bool, path: seq<byte>)

  /** What the scan accepts: the root, or a path that the name continues with a slash or not at all. */
  predicate Accepts(m: Mount, norm: seq<byte>) {
    m.inUse && (m.path == [SLASH] || (m.path != [] && m.path <= norm
                                      && (|norm| == |m.path| || norm[|m.path|] == SLASH)))
  }

  /** The accepted mount that wins: longest, and first among the longest. */
  ghost predicate IsBest(mounts: seq<Mount>, n: nat, norm: seq<byte>, best: int)
    requires n <= |mounts|
  {
    if best < 0 then forall i :: 0 <= i < n ==> !Accepts(mounts[i], norm)
    else best < n && Accepts(mounts[best], norm)
         && forall i :: 0 <= i < n && Accepts(mounts[i], norm) ==>
              |mounts[i].path| < |mounts[best].path| || (|mounts[i].path| == |mounts[best].path| && best <= i)
  }

  /** lib::strncmp(a, b, n) == 0 for C strings. */
  method StringsEqual(a: seq<byte>, b: seq<byte>, count: nat) returns (same: bool)
    requires 0 !in a && 0 !in b && count <= |b|
    ensures same <==> b[..count] <= a
  {
    if count == 0 { return true; }
    var i, n := 0, count;
    while n > 1 && i < |a| && a[i] == b[i]
      invariant 0 <= i <= |a| && 1 <= n <= count && i == count - n
      invariant a[..i] == b[..i]
    {
      i := i + 1;
      n := n - 1;
    }
    same := i < |a| && a[i] == b[i];
    if same {
      assert a[..i + 1] == b[..i + 1];
    }
    assert i < |a| && b[..count] <= a ==> a[i] == b[..count][i];
  }

  /** The loop at lines 256-281 of vfs_resolve_path, for a path without drive. */
  method ChooseMount(mounts: seq<Mount>, norm: seq<byte>) returns (best: int, prefixLen: nat)
    requires 0 !in norm && norm != [] && norm[0] == SLASH && forall i :: 0 <= i < |mounts| ==> 0 !in mounts[i].path
    ensures -1 <= best < |mounts| && IsBest(mounts, |mounts|, norm, best)
    ensures prefixLen == if best < 0 then 0 else |mounts[best].path|
  {
    best, prefixLen := -1, 0;
    var i := 0;
    while i < |mounts|
      invariant 0 <= i <= |mounts| && -1 <= best < i
      invariant IsBest(mounts, i, norm, best)
      invariant prefixLen == if best < 0 then 0 else |mounts[best].path|
    {
      if mounts[i].inUse {
        var mpath := mounts[i].path;
        var mlen := |mpath|;
        if mlen == 1 && mpath[0] == SLASH {
          if prefixLen == 0 {
            prefixLen := 1;
            best := i;
          }
        } else {
          var same := StringsEqual(norm, mpath, mlen);
          assert mpath[..mlen] == mpath;
          if same {
            if mlen == |norm| || norm[mlen] == SLASH {
              if mlen > prefixLen {
                prefixLen := mlen;
                best := i;
              }
            }
          }
        }
      }
      i := i + 1;
    }
  }

  /** For normal paths, accepting is having the mount's components as a prefix of the path's. */
  lemma AcceptsIffComponents(m: Mount, norm: seq<byte>)
    requires m.inUse && IsNormal(m.path) && !HasDrive(m.path) && IsNormal(norm) && !HasDrive(norm)
    ensures Accepts(m, norm) <==> Components(m.path) <= Components(norm)
  {
    ComponentsJoin(m.path);
    ComponentsJoin(norm);
    var a, b := Components(m.path), Components(norm);
    if m.path != [SLASH] {
      if Accepts(m, norm) {
        var rest := norm[|m.path|..];
        assert norm == m.path + rest;
        PartsAcross(m.path, rest, []);
      }
      if a <= b {
        assert b == a + b[|a|..];
        JoinConcat(a, b[|a|..]);
        JoinStart(b[|a|..]);
      }
    }
  }

  /** The mount that wins has the most components among those that are a prefix of the path's. */
  lemma BestHasMost(mounts: seq<Mount>, norm: seq<byte>, best: int, i: nat)
    requires IsBest(mounts, |mounts|, norm, best) && IsNormal(norm) && !HasDrive(norm)
    requires forall j :: 0 <= j < |mounts| && mounts[j].inUse ==> IsNormal(mounts[j].path) && !HasDrive(mounts[j].path)
    requires i < |mounts| && mounts[i].inUse && Components(mounts[i].path) <= Components(norm)
    ensures best >= 0 && mounts[best].inUse && Components(mounts[best].path) <= Components(norm)
    ensures Components(mounts[i].path) <= Components(mounts[best].path)
  {
    hide IsNormal, Components;
    AcceptsIffComponents(mounts[i], norm);
    AcceptsIffComponents(mounts[best], norm);
    LongerHasMore(mounts[i].path, mounts[best].path, norm);
  }

  /** Of two paths that start a third, the longer one has the components of the other and more. */
  lemma LongerHasMore(a: seq<byte>, b: seq<byte>, norm: seq<byte>)
    requires IsNormal(a) && !HasDrive(a) && IsNormal(b) && !HasDrive(b) && |a| <= |b|
    requires Components(a) <= Components(norm) && Components(b) <= Components(norm)
    ensures Components(a) <= Components(b)
  {
    ComponentsJoin(a);
    ComponentsJoin(b);
    var x, y := Components(a), Components(b);
    if a != [SLASH] && |y| <= |x| {
      assert x == y + x[|y|..];
      JoinLonger(y, x[|y|..]);
    }
  }

  lemma JoinLonger(y: seq<seq<byte>>, more: seq<seq<byte>>)
    ensures |Join(y + more)| >= |Join(y)| + |more|
  {
    JoinConcat(y, more);
    JoinSize(more);
  }

  lemma {:induction false} JoinSize(cs: seq<seq<byte>>)
    ensures |Join(cs)| >= |cs|
  {
    if cs != [] {
      JoinSize(cs[1..]);
    }
  }

  lemma JoinStart(cs: seq<seq<byte>>)
    ensures Join(cs) == [] || Join(cs)[0] == SLASH
  {
  }
}
