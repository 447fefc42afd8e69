/** The initial stack of a program (kernel/loader/stack.cpp:23-122) and how a program reads it (System V AMD64 psABI,
    section 3.4.1). */
module UserStack {
  import opened Bytes

  const U64 := 0x1_0000_0000_0000_0000

  type word = x: int | 0 <= x < U64

  function Le64(s: seq<byte>, o: nat): (w: word)
    requires o + 8 <= |s|
  {
    Le32(s, o) + U32 * Le32(s, o + 4)
  }

  function PutLe64(w: word): (s: seq<byte>)
    ensures |s| == 8 && Le64(s, 0) == w
  {
    var s := PutLe32(w % U32) + PutLe32(w / U32);
    assert s[..4] == PutLe32(w % U32) && s[4..] == PutLe32(w / U32);
    assert forall k :: 0 <= k < 4 ==> s[k] == PutLe32(w % U32)[k] && s[4 + k] == PutLe32(w / U32)[k];
    s
  }

  /** The low byte comes first, in words of eight bytes too. */
  lemma Le64Is(w: word)
    ensures var s := PutLe64(w); s[..4] == PutLe32(w % U32) && s[4..] == PutLe32(w / U32)
  {
  }

  // ---- strings, pushed last first ----

  /** Strings with their NULs, one after the other. */
  function Flat(ss: seq<seq<byte>>): seq<byte> {
    if ss == [] then [] else ss[0] + [0] + Flat(ss[1..])
  }

  /** Where string `i` starts when the strings end at `top`. */
  function Pointer(ss: seq<seq<byte>>, i: nat, top: int): int
    requires i <= |ss|
  {
    top - |Flat(ss[i..])|
  }

  function Pointers(ss: seq<seq<byte>>, top: int): (ps: seq<int>)
    ensures |ps| == |ss| && forall i :: 0 <= i < |ss| ==> ps[i] == Pointer(ss, i, top)
  {
    seq(|ss|, i requires 0 <= i < |ss| => Pointer(ss, i, top))
  }

  lemma PointerIs(ss: seq<seq<byte>>, i: nat, top: int)
    requires i <= |ss|
    ensures Pointer(ss, i, top) == top - |Flat(ss[i..])| && ss[0..] == ss && Flat(ss[|ss|..]) == []
  {
  }

  lemma FlatNext(ss: seq<seq<byte>>, i: nat)
    requires i < |ss|
    ensures Flat(ss[i..]) == ss[i] + [0] + Flat(ss[i + 1..])
  {
    assert ss[i..][1..] == ss[i + 1..];
  }

  /** One turn of the loops at lines 51-56 and 60-65. */
  method PushString(mem: array<byte>, bottom: nat, sp: nat, s: seq<byte>) returns (p: nat)
    requires bottom + |s| + 1 <= sp <= bottom + mem.Length
    modifies mem
    ensures p == sp - (|s| + 1) && mem[..] == Splice(old(mem[..]), p - bottom, s + [0])
  {
    p := sp - (|s| + 1);
    var x := s + [0];
    forall k | 0 <= k < |x| {
      mem[p - bottom + k] := x[k];
    }
  }

  method PushStrings(mem: array<byte>, bottom: nat, top: nat, ss: seq<seq<byte>>) returns (ptrs: array<int>, sp: nat)
    requires bottom + |Flat(ss)| <= top <= bottom + mem.Length
    modifies mem
    ensures fresh(ptrs) && ptrs[..] == Pointers(ss, top) && sp == top - |Flat(ss)|
    ensures mem[..] == Splice(old(mem[..]), sp - bottom, Flat(ss))
  {
    hide Splice, Pointers, Pointer, Flat;
    ptrs := new int[|ss|];
    sp := top;
    var i := |ss|;
    NothingPushed(mem[..], top - bottom, ss);
    PointerIs(ss, |ss|, top);
    while i > 0
      invariant 0 <= i <= |ss| && sp == Pointer(ss, i, top) == top - |Flat(ss[i..])| >= bottom
      invariant ptrs.Length == |ss| && |Flat(ss[i..])| <= |Flat(ss)|
      invariant mem[..] == Splice(old(mem[..]), sp - bottom, Flat(ss[i..]))
      invariant forall j :: i <= j < |ss| ==> ptrs[j] == Pointer(ss, j, top)
    {
      i := i - 1;
      FlatNext(ss, i);
      FlatSize(ss, i);
      PointerIs(ss, i, top);
      PushedBelow(old(mem[..]), sp - bottom, ss[i] + [0], Flat(ss[i + 1..]));
      sp := PushString(mem, bottom, sp, ss[i]);
      ptrs[i] := sp;
    }
    PointerIs(ss, 0, top);
    PointersAre(ptrs[..], ss, top);
  }

  lemma PointersAre(ps: seq<int>, ss: seq<seq<byte>>, top: int)
    requires |ps| == |ss| && forall j :: 0 <= j < |ss| ==> ps[j] == Pointer(ss, j, top)
    ensures ps == Pointers(ss, top)
  {
  }

  lemma {:induction false} FlatSize(ss: seq<seq<byte>>, i: nat)
    requires i <= |ss|
    ensures |Flat(ss[i..])| <= |Flat(ss)| && (i < |ss| ==> |Flat(ss[i..])| == |ss[i]| + 1 + |Flat(ss[i + 1..])|)
    decreases i
  {
    if i < |ss| {
      FlatNext(ss, i);
    }
    if i > 0 {
      FlatSize(ss, i - 1);
      FlatNext(ss, i - 1);
    } else {
      assert ss[0..] == ss;
    }
  }

  lemma NothingPushed(m: seq<byte>, o: nat, ss: seq<seq<byte>>)
    requires o <= |m|
    ensures Flat(ss[|ss|..]) == [] && Splice(m, o, []) == m
  {
  }

  lemma PushedBelow(m: seq<byte>, o: nat, x: seq<byte>, y: seq<byte>)
    requires |x| <= o && o + |y| <= |m|
    ensures Splice(Splice(m, o, y), o - |x|, x) == Splice(m, o - |x|, x + y)
  {
  }

  // ---- words, pushed first first ----

  function WordBytes(ws: seq<word>): (s: seq<byte>)
    ensures |s| == 8 * |ws|
  {
    if ws == [] then [] else WordBytes(ws[..|ws| - 1]) + PutLe64(ws[|ws| - 1])
  }

  /** The words stored so far, from offset `o` on. */
  ghost predicate Stored(now: seq<byte>, was: seq<byte>, o: nat, ws: seq<word>) {
    o + 8 * |ws| <= |was| && now == Splice(was, o, WordBytes(ws))
  }

  method StoreWord(mem: array<byte>, o: nat, w: nat, x: word, ghost was: seq<byte>, ghost ws: seq<word>)
    requires Stored(mem[..], was, o, ws) && w == |ws| && o + 8 * w + 8 <= mem.Length
    modifies mem
    ensures Stored(mem[..], was, o, ws + [x])
  {
    hide PutLe64, Splice;
    ghost var now := mem[..];
    var x8 := PutLe64(x);
    forall k | 0 <= k < 8 {
      mem[o + 8 * w + k] := x8[k];
    }
    StoredWord(now, was, o, ws, x, mem[..]);
  }

  lemma StoredWord(now: seq<byte>, was: seq<byte>, o: nat, ws: seq<word>, x: word, after: seq<byte>)
    requires Stored(now, was, o, ws) && o + 8 * |ws| + 8 <= |now| && |after| == |now|
    requires forall k :: 0 <= k < |now| ==> after[k] == if o + 8 * |ws| <= k < o + 8 * |ws| + 8
             then PutLe64(x)[k - (o + 8 * |ws|)] else now[k]
    ensures Stored(after, was, o, ws + [x])
  {
    hide PutLe64;
    assert (ws + [x])[..|ws|] == ws;
    assert after == Splice(was, o, WordBytes(ws) + PutLe64(x));
  }

  // ---- the auxiliary vector and the whole stack ----

  const AT_NULL := 0
  const AT_PHDR := 3
  const AT_PHENT := 4
  const AT_PHNUM := 5
  const AT_PAGESZ := 6
  const AT_BASE := 7
  const AT_FLAGS := 8
  const AT_ENTRY := 9
  const AT_UID := 11
  const AT_EUID := 12
  const AT_GID := 13
  const AT_EGID := 14
  const AT_SECURE := 23
  const AT_RANDOM := 25
  const AT_EXECFN := 31

  /** The fields of BinaryInfo the builder uses. */
  datatype Info = Info(phdrVaddr: word, imageBase: word, phentsize: word, phnum: word, segmentCount: word,
                       entryPoint: word)

  datatype Aux = Aux(kind: word, value: word)

  function AuxVector(info: Info, random: word, execfn: word): (aux: seq<Aux>)
    ensures |aux| == 14 && forall i :: 0 <= i < 14 ==> aux[i].kind != AT_NULL
  {
    [Aux(AT_PHDR, if info.phdrVaddr != 0 then info.phdrVaddr else (info.imageBase + 0x40) % U64),
     Aux(AT_PHENT, if info.phentsize != 0 then info.phentsize else 56),
     Aux(AT_PHNUM, if info.phnum != 0 then info.phnum else info.segmentCount),
     Aux(AT_PAGESZ, 4096), Aux(AT_BASE, 0), Aux(AT_FLAGS, 0), Aux(AT_ENTRY, info.entryPoint),
     Aux(AT_UID, 1000), Aux(AT_EUID, 1000), Aux(AT_GID, 1000), Aux(AT_EGID, 1000), Aux(AT_SECURE, 0),
     Aux(AT_RANDOM, random), Aux(AT_EXECFN, execfn)]
  }

  function AuxWords(aux: seq<Aux>): (ws: seq<word>)
    ensures |ws| == 2 * |aux|
  {
    if aux == [] then [] else [aux[0].kind] + ([aux[0].value] + AuxWords(aux[1..]))
  }

  const SEED: seq<byte> := [0x6a, 0x09, 0xe6, 0x67, 0xbb, 0x67, 0xae, 0x85, 0x3c, 0x6e, 0xf3, 0x72, 0xa5, 0x4f, 0xf5,
                            0x3a]

  function DefaultEnv(): seq<seq<byte>> {
    [Text("PATH=/bin:/usr/bin"), Text("TERM=xterm-256color"), Text("USER=zwei"), Text("HOME=/")]
  }

  function ActiveEnv(envp: Option<seq<seq<byte>>>): seq<seq<byte>> { if envp.Some? then envp.value else DefaultEnv() }

  ghost predicate AreWords(ps: seq<int>) {
    forall i :: 0 <= i < |ps| ==> 0 <= ps[i] < U64
  }

  /** All words of the stack, from the returned pointer upward. */
  function StackWords(args: seq<word>, envs: seq<word>, aux: seq<Aux>): seq<word>
    requires |args| < U64
  {
    [|args|] + args + [0] + envs + [0] + AuxWords(aux + [Aux(AT_NULL, 0)])
  }

  function WordCount(argc: nat, envc: nat): nat { 1 + (argc + 1) + (envc + 1) + 30 }

  /** Enough room for the seed, the strings, the words and both alignments. */
  predicate Room(size: nat, argv: seq<seq<byte>>, env: seq<seq<byte>>) {
    16 + |Flat(env)| + |Flat(argv)| + 7 + 8 * WordCount(|argv|, |env|) + 15 <= size
  }

  datatype Layout = Layout(random: int, envTop: int, argTop: int, strings: int, target: int)

  function LayoutOf(bottom: nat, size: nat, argv: seq<seq<byte>>, env: seq<seq<byte>>): Layout {
    var random := bottom + size - 16;
    var argTop := random - |Flat(env)|;
    var strings := argTop - |Flat(argv)|;
    var low := strings - strings % 8 - 8 * WordCount(|argv|, |env|);
    Layout(random, random, argTop, strings, low - low % 16)
  }

  lemma LayoutFits(bottom: nat, size: nat, argv: seq<seq<byte>>, env: seq<seq<byte>>)
    requires Room(size, argv, env)
    ensures var l := LayoutOf(bottom, size, argv, env);
            && bottom <= l.target && l.target % 16 == 0 && l.target + 8 * WordCount(|argv|, |env|) <= l.strings
            && l.strings <= l.argTop <= l.envTop == l.random == bottom + size - 16
  {
    hide Flat;
  }

  /** What the builder leaves in memory. */
  function Built(was: seq<byte>, bottom: nat, argv: seq<seq<byte>>, env: seq<seq<byte>>, info: Info): (r: seq<byte>)
    requires Room(|was|, argv, env) && bottom + |was| < U64 && |argv| > 0
    ensures |r| == |was|
  {
    LayoutFits(bottom, |was|, argv, env);
    var l := LayoutOf(bottom, |was|, argv, env);
    var m := Splice(Splice(Splice(was, l.random - bottom, SEED), l.argTop - bottom, Flat(env)), l.strings - bottom,
                    Flat(argv));
    Splice(m, l.target - bottom, WordBytes(Words(bottom, |was|, argv, env, info)))
  }

  lemma PointersInRange(ss: seq<seq<byte>>, low: int, top: int)
    requires low == top - |Flat(ss)|
    ensures forall i :: 0 <= i < |ss| ==> low <= Pointer(ss, i, top) < top
  {
    hide Flat;
    forall i | 0 <= i < |ss|
      ensures low <= Pointer(ss, i, top) < top
    {
      FlatSize(ss, i);
    }
  }

  function AsWords(ps: seq<int>): (ws: seq<word>)
    requires AreWords(ps)
    ensures ws == ps
  {
    seq(|ps|, i requires 0 <= i < |ps| => ps[i])
  }

  /** The words of the stack, from the layout. */
  function Words(bottom: nat, size: nat, argv: seq<seq<byte>>, env: seq<seq<byte>>, info: Info): (ws: seq<word>)
    requires Room(size, argv, env) && bottom + size < U64 && |argv| > 0
    ensures |ws| == WordCount(|argv|, |env|)
  {
    LayoutFits(bottom, size, argv, env);
    var l := LayoutOf(bottom, size, argv, env);
    PointersInRange(argv, l.strings, l.argTop);
    PointersInRange(env, l.argTop, l.envTop);
    var args, envs := AsWords(Pointers(argv, l.argTop)), AsWords(Pointers(env, l.envTop));
    StackWords(args, envs, AuxVector(info, l.random, args[0]))
  }

  /** Stores `xs` after the words stored so far. */
  method StoreWords(mem: array<byte>, o: nat, w: nat, xs: seq<word>, ghost was: seq<byte>, ghost ws: seq<word>)
      returns (w': nat)
    requires Stored(mem[..], was, o, ws) && w == |ws| && o + 8 * (w + |xs|) <= mem.Length
    modifies mem
    ensures Stored(mem[..], was, o, ws + xs) && w' == w + |xs|
  {
    hide Stored;
    w' := w;
    var i := 0;
    assert ws + xs[..0] == ws;
    while i < |xs|
      invariant 0 <= i <= |xs| && w' == w + i && Stored(mem[..], was, o, ws + xs[..i])
    {
      StoreWord(mem, o, w', xs[i], was, ws + xs[..i]);
      assert (ws + xs[..i]) + [xs[i]] == ws + xs[..i + 1];
      w' := w' + 1;
      i := i + 1;
    }
    assert xs[..i] == xs;
  }

  lemma StoredNone(was: seq<byte>, o: nat)
    requires o <= |was|
    ensures Stored(was, was, o, [])
  {
  }

  lemma StackWordsParts(args: seq<word>, envs: seq<word>, aux: seq<Aux>)
    requires |args| < U64
    ensures (((([] + [|args|]) + args) + [0]) + envs) + [0] + AuxWords(aux + [Aux(AT_NULL, 0)]) == StackWords(args,
            envs, aux)
  {
  }

  /** kernel/loader/stack.cpp:45-65: the random seed, the environment and the arguments. */
  method PushAll(mem: array<byte>, bottom: nat, argv: seq<seq<byte>>, env: seq<seq<byte>>)
      returns (args: seq<word>, envs: seq<word>, sp: nat)
    requires Room(mem.Length, argv, env) && bottom + mem.Length < U64
    modifies mem
    ensures var l := LayoutOf(bottom, mem.Length, argv, env);
            && bottom <= l.strings <= l.argTop <= l.envTop == l.random <= bottom + mem.Length
            && args == Pointers(argv, l.argTop) && envs == Pointers(env, l.envTop) && sp == l.strings
            && mem[..] == Splice(Splice(Splice(old(mem[..]), l.random - bottom, SEED), l.argTop - bottom, Flat(env)),
                                 l.strings - bottom, Flat(argv))
  {
    hide Flat, Splice, Pointers, Pointer, LayoutOf, Room, WordCount;
    LayoutFits(bottom, mem.Length, argv, env);
    LayoutIs(bottom, mem.Length, argv, env);
    ghost var l := LayoutOf(bottom, mem.Length, argv, env);
    PointersInRange(argv, l.strings, l.argTop);
    PointersInRange(env, l.argTop, l.envTop);
    sp := bottom + mem.Length - 16;
    PushSeed(mem, sp - bottom);
    var envPtrs, sp1 := PushStrings(mem, bottom, sp, env);
    var argPtrs, sp2 := PushStrings(mem, bottom, sp1, argv);
    args, envs, sp := AsWords(argPtrs[..]), AsWords(envPtrs[..]), sp2;
  }

  /** kernel/loader/stack.cpp:67-119: alignment, and the words below the strings. */
  method BuildStack(mem: array<byte>, bottom: nat, info: Info, argv: seq<seq<byte>>, env: seq<seq<byte>>)
      returns (sp: nat)
    requires Room(mem.Length, argv, env) && bottom + mem.Length < U64 && 0 < |argv| <= 32 && |env| <= 32
    modifies mem
    ensures mem[..] == Built(old(mem[..]), bottom, argv, env, info)
    ensures sp == LayoutOf(bottom, mem.Length, argv, env).target
  {
    hide Flat, Splice, Pointers, Pointer, AuxVector, WordBytes, StackWords, Built, LayoutOf, Words, Room, WordCount;
    LayoutFits(bottom, mem.Length, argv, env);
    LayoutIs(bottom, mem.Length, argv, env);
    ghost var l, was := LayoutOf(bottom, mem.Length, argv, env), mem[..];
    var random := bottom + mem.Length - 16;
    var args, envs, top := PushAll(mem, bottom, argv, env);
    sp := top - top % 8;
    var aux := AuxVector(info, random, args[0]);
    WordCountIs(|argv|, |env|);
    var totalWords := 1 + (|argv| + 1) + (|env| + 1) + 2 * (|aux| + 1);
    sp := sp - 8 * totalWords;
    sp := sp - sp % 16;
    assert sp == l.target;
    WriteWords(mem, sp - bottom, args, envs, aux);
    StackWordsSize(args, envs, aux);
    BuiltIs(was, bottom, argv, env, info, args, envs, mem[..]);
  }

  /** setup_system_v_stack; `mem` is the stack's memory from address `bottom` on. */
  method SetupStack(mem: array<byte>, bottom: nat, info: Option<Info>, argv: seq<seq<byte>>,
                    envp: Option<seq<seq<byte>>>) returns (sp: nat)
    requires info.Some? && |argv| > 0 ==> Room(mem.Length, argv, ActiveEnv(envp)) && |argv| <= 32
                                          && |ActiveEnv(envp)| <= 32
    requires bottom + mem.Length < U64
    modifies mem
    ensures info.None? || |argv| == 0 ==> sp == 0 && mem[..] == old(mem[..])
    ensures info.Some? && |argv| > 0 ==> mem[..] == Built(old(mem[..]), bottom, argv, ActiveEnv(envp), info.value)
    ensures info.Some? && |argv| > 0 ==> sp == LayoutOf(bottom, mem.Length, argv, ActiveEnv(envp)).target
  {
    hide Built, LayoutOf, Room, ActiveEnv;
    if info.None? || |argv| == 0 { return 0; }
    sp := BuildStack(mem, bottom, info.value, argv, ActiveEnv(envp));
  }

  lemma WordCountIs(argc: nat, envc: nat)
    ensures WordCount(argc, envc) == 1 + (argc + 1) + (envc + 1) + 2 * (14 + 1)
  {
  }

  lemma StackWordsSize(args: seq<word>, envs: seq<word>, aux: seq<Aux>)
    requires |args| < U64 && |aux| == 14
    ensures |WordBytes(StackWords(args, envs, aux))| == 8 * WordCount(|args|, |envs|)
  {
  }

  lemma LayoutIs(bottom: nat, size: nat, argv: seq<seq<byte>>, env: seq<seq<byte>>)
    ensures var l := LayoutOf(bottom, size, argv, env);
            && l.random == bottom + size - 16 && l.argTop == l.random - |Flat(env)|
            && l.strings == l.argTop - |Flat(argv)|
            && var low := l.strings - l.strings % 8 - 8 * WordCount(|argv|, |env|); l.target == low - low % 16
  {
    hide Flat;
  }

  lemma BuiltIs(was: seq<byte>, bottom: nat, argv: seq<seq<byte>>, env: seq<seq<byte>>, info: Info, args: seq<word>,
                envs: seq<word>, m: seq<byte>)
    requires Room(|was|, argv, env) && bottom + |was| < U64 && |argv| > 0
    requires var l := LayoutOf(bottom, |was|, argv, env);
             && args == Pointers(argv, l.argTop) && envs == Pointers(env, l.envTop)
             && bottom <= l.target && 0 <= l.random < U64 && l.target + 8 * WordCount(|argv|, |env|) <= l.strings
             && l.strings == l.argTop - |Flat(argv)| && l.argTop == l.random - |Flat(env)|
             && l.random + 16 == bottom + |was|
             && var s := Splice(Splice(Splice(was, l.random - bottom, SEED), l.argTop - bottom, Flat(env)),
                                l.strings - bottom, Flat(argv));
                var words := WordBytes(StackWords(args, envs, AuxVector(info, l.random, args[0])));
                |words| == 8 * WordCount(|argv|, |env|) && m == Splice(s, l.target - bottom, words)
    ensures m == Built(was, bottom, argv, env, info)
  {
    hide Flat, Splice, Pointers, Pointer, AuxVector, WordBytes, StackWords, LayoutOf;
    LayoutFits(bottom, |was|, argv, env);
    var l := LayoutOf(bottom, |was|, argv, env);
    PointersInRange(argv, l.strings, l.argTop);
    PointersInRange(env, l.argTop, l.envTop);
  }

  /** Lines 97-119. */
  method WriteWords(mem: array<byte>, o: nat, args: seq<word>, envs: seq<word>, aux: seq<Aux>)
    requires |args| < U64 && o + 8 * (1 + (|args| + 1) + (|envs| + 1) + 2 * (|aux| + 1)) <= mem.Length
    modifies mem
    ensures mem[..] == Splice(old(mem[..]), o, WordBytes(StackWords(args, envs, aux)))
  {
    hide Stored, AuxWords, WordBytes, StackWords, Splice;
    ghost var base := mem[..];
    StoredNone(base, o);
    StackWordsParts(args, envs, aux);
    var w := StoreWords(mem, o, 0, [|args|], base, []);
    w := StoreWords(mem, o, w, args, base, [] + [|args|]);
    w := StoreWords(mem, o, w, [0], base, ([] + [|args|]) + args);
    w := StoreWords(mem, o, w, envs, base, (([] + [|args|]) + args) + [0]);
    w := StoreWords(mem, o, w, [0], base, ((([] + [|args|]) + args) + [0]) + envs);
    w := StoreWords(mem, o, w, AuxWords(aux + [Aux(AT_NULL, 0)]), base,
                    (((([] + [|args|]) + args) + [0]) + envs) + [0]);
    StoredAll(mem[..], base, o, StackWords(args, envs, aux));
  }

  method PushSeed(mem: array<byte>, o: nat)
    requires o + 16 <= mem.Length
    modifies mem
    ensures mem[..] == Splice(old(mem[..]), o, SEED)
  {
    forall k | 0 <= k < 16 {
      mem[o + k] := SEED[k];
    }
  }

  lemma StoredAll(now: seq<byte>, was: seq<byte>, o: nat, ws: seq<word>)
    requires Stored(now, was, o, ws)
    ensures o + 8 * |ws| <= |was| && now == Splice(was, o, WordBytes(ws))
  {
  }

  // ---- what the program reads ----

  datatype Program = Program(argc: word, argv: seq<seq<byte>>, envp: seq<seq<byte>>, aux: seq<Aux>)

  /** The bytes up to the NUL. */
  function CString(m: seq<byte>, o: nat): seq<byte>
    decreases |m| - o
  {
    if o >= |m| || m[o] == 0 then [] else [m[o]] + CString(m, o + 1)
  }

  /** The words up to the zero word. */
  function WordList(m: seq<byte>, o: nat): seq<word>
    decreases |m| - o
  {
    if o + 8 > |m| || Le64(m, o) == 0 then [] else [Le64(m, o)] + WordList(m, o + 8)
  }

  function AuxList(m: seq<byte>, o: nat): seq<Aux>
    decreases |m| - o
  {
    if o + 16 > |m| || Le64(m, o) == AT_NULL then [] else [Aux(Le64(m, o), Le64(m, o + 8))] + AuxList(m, o + 16)
  }

  function StringAt(m: seq<byte>, bottom: nat,
                    p: word): seq<byte> { if p >= bottom then CString(m, p - bottom) else [] }

  function StringsAt(m: seq<byte>, bottom: nat, ps: seq<word>): (ss: seq<seq<byte>>)
    ensures |ss| == |ps| && forall i :: 0 <= i < |ps| ==> ss[i] == StringAt(m, bottom, ps[i])
  {
    seq(|ps|, i requires 0 <= i < |ps| => StringAt(m, bottom, ps[i]))
  }

  /** A program's view of the stack at offset `o` of memory that starts at `bottom`: the argument count, the argument
      and environment pointers up to their zero words, and the auxiliary vector up to AT_NULL. */
  function Parse(m: seq<byte>, bottom: nat, o: nat): Program
    requires o + 8 <= |m|
  {
    var args := WordList(m, o + 8);
    var envs := WordList(m, o + 8 * (|args| + 2));
    Program(Le64(m, o), StringsAt(m, bottom, args), StringsAt(m, bottom, envs),
            AuxList(m, o + 8 * (|args| + |envs| + 3)))
  }

  lemma {:induction false} CStringReads(m: seq<byte>, o: nat, s: seq<byte>)
    requires o + |s| < |m| && m[o..o + |s|] == s && m[o + |s|] == 0 && 0 !in s
    ensures CString(m, o) == s
    decreases |s|
  {
    if s != [] {
      assert m[o] == s[0];
      assert m[o + 1..o + 1 + |s[1..]|] == s[1..];
      CStringReads(m, o + 1, s[1..]);
    }
  }

  /** The words `ws` at offset `o`. */
  ghost predicate WordsAt(m: seq<byte>, o: nat, ws: seq<word>) {
    o + 8 * |ws| <= |m| && forall i :: 0 <= i < |ws| ==> Le64(m, o + 8 * i) == ws[i]
  }

  lemma WordsSplit(m: seq<byte>, o: nat, a: seq<word>, b: seq<word>)
    requires WordsAt(m, o, a + b)
    ensures WordsAt(m, o, a) && WordsAt(m, o + 8 * |a|, b)
  {
    hide Le64;
    forall i | 0 <= i < |a|
      ensures Le64(m, o + 8 * i) == a[i]
    {
      assert (a + b)[i] == a[i];
    }
    forall i | 0 <= i < |b|
      ensures Le64(m, o + 8 * |a| + 8 * i) == b[i]
    {
      assert Le64(m, o + 8 * (|a| + i)) == (a + b)[|a| + i];
    }
  }

  lemma FirstWord(m: seq<byte>, o: nat, w: word)
    requires WordsAt(m, o, [w])
    ensures o + 8 <= |m| && Le64(m, o) == w
  {
    hide Le64;
    assert Le64(m, o + 8 * 0) == [w][0];
  }

  lemma {:induction false} WordListReads(m: seq<byte>, o: nat, ws: seq<word>)
    requires WordsAt(m, o, ws + [0]) && forall i :: 0 <= i < |ws| ==> ws[i] != 0
    ensures WordList(m, o) == ws
    decreases |ws|
  {
    hide Le64, WordsAt;
    if ws == [] {
      assert ws + [0] == [0];
      FirstWord(m, o, 0);
    } else {
      assert ws + [0] == [ws[0]] + (ws[1..] + [0]);
      WordsSplit(m, o, [ws[0]], ws[1..] + [0]);
      FirstWord(m, o, ws[0]);
      WordListReads(m, o + 8, ws[1..]);
    }
  }

  lemma AuxWordsNext(x: Aux, aux: seq<Aux>)
    ensures AuxWords([x] + aux) == [x.kind] + ([x.value] + AuxWords(aux))
  {
    assert ([x] + aux)[1..] == aux;
  }

  lemma {:induction false} AuxListReads(m: seq<byte>, o: nat, aux: seq<Aux>)
    requires WordsAt(m, o, AuxWords(aux + [Aux(AT_NULL, 0)])) && forall i :: 0 <= i < |aux| ==> aux[i].kind != AT_NULL
    ensures AuxList(m, o) == aux
    decreases |aux|
  {
    hide Le64, WordsAt, AuxWords;
    var all := aux + [Aux(AT_NULL, 0)];
    var rest := all[1..];
    assert all == [all[0]] + rest;
    AuxWordsNext(all[0], rest);
    WordsSplit(m, o, [all[0].kind], [all[0].value] + AuxWords(rest));
    WordsSplit(m, o + 8, [all[0].value], AuxWords(rest));
    FirstWord(m, o, all[0].kind);
    FirstWord(m, o + 8, all[0].value);
    if aux != [] {
      assert rest == aux[1..] + [Aux(AT_NULL, 0)];
      AuxListReads(m, o + 16, aux[1..]);
    }
  }

  lemma {:induction false} WordBytesRead(ws: seq<word>, i: nat)
    requires i < |ws|
    ensures Le64(WordBytes(ws), 8 * i) == ws[i]
  {
    hide PutLe64, Le64;
    var n := |ws| - 1;
    var head, last := WordBytes(ws[..n]), PutLe64(ws[n]);
    if i < n {
      WordBytesRead(ws[..n], i);
      SameWord(head, 8 * i, head + last, 8 * i);
    } else {
      SameWord(last, 0, head + last, 8 * n);
    }
  }

  lemma SameWord(a: seq<byte>, i: nat, b: seq<byte>, j: nat)
    requires i + 8 <= |a| && j + 8 <= |b| && a[i..i + 8] == b[j..j + 8]
    ensures Le64(a, i) == Le64(b, j)
  {
    var x, y := a[i..i + 8], b[j..j + 8];
    assert x[0] == a[i] && x[1] == a[i + 1] && x[2] == a[i + 2] && x[3] == a[i + 3];
    assert x[4] == a[i + 4] && x[5] == a[i + 5] && x[6] == a[i + 6] && x[7] == a[i + 7];
    assert y[0] == b[j] && y[1] == b[j + 1] && y[2] == b[j + 2] && y[3] == b[j + 3];
    assert y[4] == b[j + 4] && y[5] == b[j + 5] && y[6] == b[j + 6] && y[7] == b[j + 7];
  }

  /** A block of words inside memory. */
  lemma WordInside(m: seq<byte>, o: nat, ws: seq<word>, i: nat)
    requires o + 8 * |ws| <= |m| && m[o..o + 8 * |ws|] == WordBytes(ws) && i < |ws|
    ensures Le64(m, o + 8 * i) == ws[i]
  {
    hide *;
    WordBytesRead(ws, i);
    SliceOfSlice(m, o, 8 * |ws|, 8 * i, 8);
    SameWord(WordBytes(ws), 8 * i, m, o + 8 * i);
  }

  lemma WordsInside(m: seq<byte>, o: nat, ws: seq<word>)
    requires o + 8 * |ws| <= |m| && m[o..o + 8 * |ws|] == WordBytes(ws)
    ensures WordsAt(m, o, ws)
  {
    hide Le64, WordBytes;
    forall i | 0 <= i < |ws|
      ensures Le64(m, o + 8 * i) == ws[i]
    {
      WordInside(m, o, ws, i);
    }
  }

  // ---- parsing what was built ----

  predicate NoNul(ss: seq<seq<byte>>) { forall i :: 0 <= i < |ss| ==> 0 !in ss[i] }

  /** String `i` of a block of strings that ends at `top`. */
  lemma StringReads(m: seq<byte>, bottom: nat, ss: seq<seq<byte>>, top: int, i: nat)
    requires NoNul(ss) && i < |ss| && bottom <= top - |Flat(ss)| && top <= bottom + |m|
    requires m[top - |Flat(ss)| - bottom..top - bottom] == Flat(ss)
    ensures bottom <= Pointer(ss, i, top) && CString(m, Pointer(ss, i, top) - bottom) == ss[i]
  {
    hide CString, Flat;
    FlatSize(ss, i);
    FlatAt(ss, i);
    var n, k := |Flat(ss)|, |Flat(ss)| - |Flat(ss[i..])|;
    var low := top - n - bottom;
    assert m[low..low + n] == Flat(ss);
    SliceOfSlice(m, low, n, k, |ss[i]| + 1);
    StringEnds(m, low + k, ss[i]);
    CStringReads(m, low + k, ss[i]);
  }

  /** Where the i-th string lies among all of them. */
  lemma FlatAt(ss: seq<seq<byte>>, i: nat)
    requires i < |ss|
    ensures var k := |Flat(ss)| - |Flat(ss[i..])|;
            0 <= k && k + |ss[i]| + 1 <= |Flat(ss)| && Flat(ss)[k..k + |ss[i]| + 1] == ss[i] + [0]
  {
    hide Flat;
    FlatSize(ss, i);
    FlatSuffix(ss, i);
    FlatNext(ss, i);
    var k := |Flat(ss)| - |Flat(ss[i..])|;
    assert Flat(ss)[k..][..|ss[i]| + 1] == ss[i] + [0];
    assert Flat(ss)[k..k + |ss[i]| + 1] == Flat(ss)[k..][..|ss[i]| + 1];
  }

  /** The strings of a block are read back through their pointers. */
  lemma StringsRead(m: seq<byte>, bottom: nat, ss: seq<seq<byte>>, top: int, ptrs: seq<word>)
    requires NoNul(ss) && bottom <= top - |Flat(ss)| && top <= bottom + |m|
             && m[top - |Flat(ss)| - bottom..top - bottom] == Flat(ss)
    requires ptrs == Pointers(ss, top)
    ensures StringsAt(m, bottom, ptrs) == ss
  {
    hide CString, Flat, Pointer, NoNul;
    forall i | 0 <= i < |ss|
      ensures StringAt(m, bottom, ptrs[i]) == ss[i]
    {
      StringReads(m, bottom, ss, top, i);
    }
  }

  lemma StringEnds(m: seq<byte>, o: nat, s: seq<byte>)
    requires o + |s| + 1 <= |m| && m[o..o + |s| + 1] == s + [0]
    ensures m[o..o + |s|] == s && m[o + |s|] == 0
  {
    var x := m[o..o + |s| + 1];
    assert x[|s|] == m[o + |s|];
    assert x[..|s|] == m[o..o + |s|];
  }

  lemma {:induction false} FlatSuffix(ss: seq<seq<byte>>, i: nat)
    requires i <= |ss|
    ensures |Flat(ss[i..])| <= |Flat(ss)| && Flat(ss)[|Flat(ss)| - |Flat(ss[i..])|..] == Flat(ss[i..])
    decreases i
  {
    if i == 0 {
      assert ss[0..] == ss;
    } else {
      FlatSuffix(ss, i - 1);
      FlatNext(ss, i - 1);
    }
  }

  /** The strings do not overlap: each ends, with its NUL, at or before the start of the next. */
  lemma {:induction false} StringsApart(ss: seq<seq<byte>>, i: nat, j: nat, top: int)
    requires i < j < |ss|
    ensures Pointer(ss, i, top) + |ss[i]| + 1 <= Pointer(ss, j, top) < top
  {
    FlatSize(ss, j);
    FlatNext(ss, j);
    if i < j - 1 {
      StringsApart(ss, i, j - 1, top);
      FlatNext(ss, j - 1);
    } else {
      FlatNext(ss, i);
    }
  }

  /** Where things are in the built memory. */
  lemma BuiltBlocks(was: seq<byte>, bottom: nat, argv: seq<seq<byte>>, env: seq<seq<byte>>, info: Info)
    requires Room(|was|, argv, env) && bottom + |was| < U64 && |argv| > 0
    ensures var m, l := Built(was, bottom, argv, env, info), LayoutOf(bottom, |was|, argv, env);
            && bottom <= l.target && l.target % 16 == 0 && l.target + 8 * WordCount(|argv|, |env|) <= l.strings
            && m[l.target - bottom..l.target - bottom + 8 * WordCount(|argv|, |env|)]
            == WordBytes(Words(bottom, |was|, argv, env, info))
            && m[l.strings - bottom..l.argTop - bottom] == Flat(argv)
            && m[l.argTop - bottom..l.envTop - bottom] == Flat(env)
            && l.envTop == l.random && m[l.random - bottom..] == SEED
  {
    hide Flat, WordBytes, Words, Splice, LayoutOf, WordCount;
    LayoutFits(bottom, |was|, argv, env);
    LayoutIs(bottom, |was|, argv, env);
    var l := LayoutOf(bottom, |was|, argv, env);
    var ws := WordBytes(Words(bottom, |was|, argv, env, info));
    FourBlocks(was, l.target - bottom, ws, l.strings - bottom, Flat(argv), l.argTop - bottom, Flat(env),
               l.random - bottom, SEED);
  }

  lemma FourBlocks(was: seq<byte>, a: nat, x: seq<byte>, b: nat, y: seq<byte>, c: nat, z: seq<byte>, d: nat,
                   w: seq<byte>)
    requires a + |x| <= b && b + |y| == c && c + |z| == d && d + |w| == |was|
    ensures var m := Splice(Splice(Splice(Splice(was, d, w), c, z), b, y), a, x);
            m[a..a + |x|] == x && m[b..c] == y && m[c..d] == z && m[d..] == w
  {
  }

  /** The stack parses back: a program that reads upward from the returned pointer finds the argument count, every
      argument and environment string, and the auxiliary vector. */
  lemma ParsesBack(was: seq<byte>, bottom: nat, argv: seq<seq<byte>>, env: seq<seq<byte>>, info: Info)
    requires Room(|was|, argv, env) && bottom + |was| < U64 && |argv| > 0 && NoNul(argv) && NoNul(env)
    ensures var l, m := LayoutOf(bottom, |was|, argv, env), Built(was, bottom, argv, env, info);
            && bottom <= l.target && l.target % 16 == 0 && l.target - bottom + 8 <= |m|
            && 0 <= Pointer(argv, 0, l.argTop) < U64 && 0 <= l.random < U64
            && Parse(m, bottom, l.target - bottom)
               == Program(|argv|, argv, env, AuxVector(info, l.random, Pointer(argv, 0, l.argTop)))
            && m[l.random - bottom..] == SEED && StringAt(m, bottom, Pointer(argv, 0, l.argTop)) == argv[0]
  {
    hide Flat, WordBytes, CString, Le64, AuxVector, AuxWords, WordsAt, WordList, AuxList, Built, NoNul, Pointer,
         StackWords;
    LayoutFits(bottom, |was|, argv, env);
    BuiltBlocks(was, bottom, argv, env, info);
    var l, m := LayoutOf(bottom, |was|, argv, env), Built(was, bottom, argv, env, info);
    PointersInRange(argv, l.strings, l.argTop);
    PointersInRange(env, l.argTop, l.envTop);
    var args, envs := AsWords(Pointers(argv, l.argTop)), AsWords(Pointers(env, l.envTop));
    var aux := AuxVector(info, l.random, args[0]);
    WordsInside(m, l.target - bottom, Words(bottom, |was|, argv, env, info));
    WordsRead(m, l.target - bottom, args, envs, aux);
    StringsRead(m, bottom, argv, l.argTop, args);
    StringsRead(m, bottom, env, l.envTop, envs);
  }

  /** What a program finds under a key of the auxiliary vector. */
  function ValueOf(aux: seq<Aux>, kind: word): Option<word> {
    if aux == [] then None else if aux[0].kind == kind then Some(aux[0].value) else ValueOf(aux[1..], kind)
  }

  lemma {:induction false} ValueAt(aux: seq<Aux>, i: nat)
    requires i < |aux| && forall j :: 0 <= j < i ==> aux[j].kind != aux[i].kind
    ensures ValueOf(aux, aux[i].kind) == Some(aux[i].value)
  {
    if i > 0 {
      ValueAt(aux[1..], i - 1);
    }
  }

  /** Program headers (3, 4, 5), page size (6), entry point (9) and users (11 to 14) by their keys; a field the loader
      left zero gets the place behind the ELF header, the size of an ELF64 program header, or the number of segments. */
  ghost predicate FindsHeaders(aux: seq<Aux>, info: Info) {
    && ValueOf(aux, 3) == Some(if info.phdrVaddr == 0 then (info.imageBase + 64) % U64 else info.phdrVaddr)
    && ValueOf(aux, 4) == Some(if info.phentsize == 0 then 56 else info.phentsize)
    && ValueOf(aux, 5) == Some(if info.phnum == 0 then info.segmentCount else info.phnum)
    && ValueOf(aux, 6) == Some(4096) && ValueOf(aux, 7) == Some(0) && ValueOf(aux, 9) == Some(info.entryPoint)
    && ValueOf(aux, 11) == ValueOf(aux, 12) == ValueOf(aux, 13) == ValueOf(aux, 14) == Some(1000)
    && ValueOf(aux, 23) == Some(0)
  }

  lemma AuxValues(info: Info, random: word, execfn: word)
    ensures var aux := AuxVector(info, random, execfn);
            FindsHeaders(aux, info) && ValueOf(aux, 25) == Some(random) && ValueOf(aux, 31) == Some(execfn)
  {
    hide ValueOf;
    var aux := AuxVector(info, random, execfn);
    forall i: nat | i < 14
      ensures ValueOf(aux, aux[i].kind) == Some(aux[i].value)
    {
      KindsDiffer(aux, info, random, execfn, i);
      ValueAt(aux, i);
    }
    assert aux[0].kind == 3 && aux[1].kind == 4 && aux[2].kind == 5 && aux[3].kind == 6 && aux[4].kind == 7;
    assert aux[6].kind == 9 && aux[7].kind == 11 && aux[8].kind == 12 && aux[9].kind == 13 && aux[10].kind == 14;
    assert aux[11].kind == 23 && aux[12].kind == 25 && aux[13].kind == 31;
  }

  lemma KindsDiffer(aux: seq<Aux>, info: Info, random: word, execfn: word, i: nat)
    requires aux == AuxVector(info, random, execfn) && i < 14
    ensures forall j :: 0 <= j < i ==> aux[j].kind != aux[i].kind
  {
    var kinds := [3, 4, 5, 6, 7, 8, 9, 11, 12, 13, 14, 23, 25, 31];
    assert forall j :: 0 <= j < 14 ==> aux[j].kind == kinds[j];
  }

  /** The key leads to this string, or to these bytes at the end of the stack. */
  ghost predicate FindsString(m: seq<byte>, bottom: nat, p: Option<word>, s: seq<byte>) {
    p.Some? && StringAt(m, bottom, p.value) == s
  }

  ghost predicate FindsBytes(m: seq<byte>, bottom: nat, p: Option<word>, s: seq<byte>) {
    p.Some? && bottom <= p.value <= bottom + |m| && m[p.value - bottom..] == s
  }

  /** A program that reads its stack finds its headers and entry point in the vector, under 31 a pointer to its own name
      and under 25 one to 16 bytes of seed. */
  lemma FindsAux(was: seq<byte>, bottom: nat, argv: seq<seq<byte>>, env: seq<seq<byte>>, info: Info)
    requires Room(|was|, argv, env) && bottom + |was| < U64 && |argv| > 0 && NoNul(argv) && NoNul(env)
    ensures var m, sp := Built(was, bottom, argv, env, info), LayoutOf(bottom, |was|, argv, env).target;
            && bottom <= sp && sp - bottom + 8 <= |m|
            && var aux := Parse(m, bottom, sp - bottom).aux;
               FindsHeaders(aux, info) && FindsString(m, bottom, ValueOf(aux, 31), argv[0])
               && FindsBytes(m, bottom, ValueOf(aux, 25), SEED)
  {
    hide Flat, ValueOf, AuxVector, Built, Parse, StringAt, Pointer, NoNul, Room, FindsHeaders;
    ParsesBack(was, bottom, argv, env, info);
    LayoutFits(bottom, |was|, argv, env);
    var l := LayoutOf(bottom, |was|, argv, env);
    AuxValues(info, l.random, Pointer(argv, 0, l.argTop));
  }

  /** A program started without an environment finds the four default strings in it. */
  lemma DefaultsRead(was: seq<byte>, bottom: nat, argv: seq<seq<byte>>, info: Info)
    requires Room(|was|, argv, ActiveEnv(None)) && bottom + |was| < U64 && |argv| > 0 && NoNul(argv)
    ensures var m := Built(was, bottom, argv, ActiveEnv(None), info);
            var sp := LayoutOf(bottom, |was|, argv, ActiveEnv(None)).target;
            && bottom <= sp && sp - bottom + 8 <= |m|
            && Parse(m, bottom, sp - bottom).envp == [Text("PATH=/bin:/usr/bin"), Text("TERM=xterm-256color"),
                                                      Text("USER=zwei"), Text("HOME=/")]
  {
    hide Room, Built, Parse, LayoutOf, Text;
    DefaultsNoNul();
    ParsesBack(was, bottom, argv, ActiveEnv(None), info);
  }

  lemma PrintableNoNul(s: string)
    requires forall i :: 0 <= i < |s| ==> ' ' <= s[i] <= '~'
    ensures 0 !in Text(s)
  {
  }

  lemma DefaultsNoNul()
    ensures NoNul(ActiveEnv(None))
  {
    hide Text;
    PrintableNoNul("PATH=/bin:/usr/bin");
    PrintableNoNul("TERM=xterm-256color");
    PrintableNoNul("USER=zwei");
    PrintableNoNul("HOME=/");
  }

  lemma Grouped(n: word, a: seq<word>, b: seq<word>, c: seq<word>)
    ensures [n] + a + [0] + b + [0] + c == [n] + ((a + [0]) + ((b + [0]) + c))
  {
  }

  /** `all` is one word, or a zero-terminated list, followed by `rest`. */
  ghost predicate WordThen(all: seq<word>, w: word, rest: seq<word>) { all == [w] + rest }

  ghost predicate ListThen(all: seq<word>, ws: seq<word>, rest: seq<word>) { all == (ws + [0]) + rest }

  ghost predicate NonZero(ws: seq<word>) {
    forall i :: 0 <= i < |ws| ==> ws[i] != 0
  }

  /** Reading the words of the stack one list after the other. */
  lemma WordsRead(m: seq<byte>, o: nat, args: seq<word>, envs: seq<word>, aux: seq<Aux>)
    requires |args| < U64 && WordsAt(m, o, StackWords(args, envs, aux)) && NonZero(args) && NonZero(envs)
    requires forall i :: 0 <= i < |aux| ==> aux[i].kind != AT_NULL
    ensures o + 8 <= |m| && Le64(m, o) == |args| && WordList(m, o + 8) == args
    ensures WordList(m, o + 8 * (|args| + 2)) == envs
    ensures AuxList(m, o + 8 * (|args| + |envs| + 3)) == aux
  {
    hide WordsAt, Le64, AuxWords, StackWords, WordList, AuxList, WordThen, ListThen, NonZero;
    var r1, r2 := StackParts(args, envs, aux);
    WordThenReads(m, o, StackWords(args, envs, aux), |args|, r1);
    ListThenReads(m, o + 8, r1, args, r2);
    ListThenReads(m, o + 8 * (|args| + 2), r2, envs, AuxWords(aux + [Aux(AT_NULL, 0)]));
    AuxListReads(m, o + 8 * (|args| + |envs| + 3), aux);
  }

  lemma StackParts(args: seq<word>, envs: seq<word>, aux: seq<Aux>) returns (r1: seq<word>, r2: seq<word>)
    requires |args| < U64
    ensures WordThen(StackWords(args, envs, aux), |args|, r1) && ListThen(r1, args, r2)
            && ListThen(r2, envs, AuxWords(aux + [Aux(AT_NULL, 0)]))
  {
    var tail := AuxWords(aux + [Aux(AT_NULL, 0)]);
    r2 := (envs + [0]) + tail;
    r1 := (args + [0]) + r2;
    Grouped(|args|, args, envs, tail);
  }

  lemma WordThenReads(m: seq<byte>, o: nat, all: seq<word>, w: word, rest: seq<word>)
    requires WordsAt(m, o, all) && WordThen(all, w, rest)
    ensures o + 8 <= |m| && Le64(m, o) == w && WordsAt(m, o + 8, rest)
  {
    hide WordsAt, Le64;
    WordsSplit(m, o, [w], rest);
    FirstWord(m, o, w);
  }

  lemma ListThenReads(m: seq<byte>, o: nat, all: seq<word>, ws: seq<word>, rest: seq<word>)
    requires WordsAt(m, o, all) && ListThen(all, ws, rest) && NonZero(ws)
    ensures WordList(m, o) == ws && WordsAt(m, o + 8 * (|ws| + 1), rest)
  {
    hide WordsAt, Le64, WordList;
    WordsSplit(m, o, ws + [0], rest);
    WordListReads(m, o, ws);
  }
}
