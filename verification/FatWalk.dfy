/** Finding a node by its path: the token loop of resolve_relative_path (kernel/fs/vfs.cpp:192-231) over lookups. */
module FatWalk {
  import opened Bytes
  import opened FatTable
  import opened FatChains
  import opened FatDriver
  import opened FatContents
  import opened FatDirent
  import opened FatFile
  import opened FatNames
  import opened FatDirectory
  import opened FatDirOps
  import Paths

  const TOKEN := 63  // characters of a token, one less than its buffer

  predicate IsSeparator(c: byte) { c == Paths.SLASH || c == Paths.BACKSLASH }

  // ---- tokens ----

  /** How long the token at the start of `p` is. */
  function TokenLength(p: seq<byte>, room: nat): (n: nat)
    ensures n <= |p| && n <= room
  {
    if p == [] || IsSeparator(p[0]) || room == 0 then 0 else 1 + TokenLength(p[1..], room - 1)
  }

  function Unseparated(p: seq<byte>): (r: seq<byte>)
    ensures |r| <= |p| && (p != [] && IsSeparator(p[0]) ==> |r| < |p|)
  {
    if p != [] && IsSeparator(p[0]) then Unseparated(p[1..]) else p
  }

  /** The tokens of a path: its components, those of more than 63 characters cut in pieces. */
  function Tokens(p: seq<byte>): seq<seq<byte>>
    decreases |p|
  {
    if p == [] then []
    else
      var n := TokenLength(p, TOKEN);
      (if n == 0 then [] else [p[..n]]) + Tokens(Unseparated(p[n..]))
  }

  // ---- places ----

  /** What a node of the kernel says about where it lies. */
  datatype Place = Place(first: nat, size: nat, isDirectory: bool)

  ghost function PlaceOf(node: FatNode): Place
    reads node
  {
    Place(node.firstCluster, node.size, node.isDirectory)
  }

  ghost function Chain(g: Geometry, v: Volume, p: Place): seq<nat> { ChainFrom(g, v.table, p.first) }

  /** A directory with a complete chain and no long names in it. */
  ghost predicate Listable(g: Geometry, v: Volume, p: Place) {
    && IsChain(g, v.table, Chain(g, v, p)) && Chain(g, v, p)[0] == p.first
    && InData(v, Chain(g, v, p)) && NoLongNames(DirEntries(v, Chain(g, v, p)))
  }

  function PlaceIn(e: Entry): Place {
    Place(StartCluster(e), FileSize(e), Attributes(e) / ATTR_DIRECTORY % 2 == 1)
  }

  ghost function Child(g: Geometry, v: Volume, p: Place, name: seq<byte>): Option<Place>
    requires Listable(g, v, p)
  {
    var l := Listing(DirEntries(v, Chain(g, v, p)));
    if LowerAll(name) in l then Some(PlaceIn(l[LowerAll(name)])) else None
  }

  /** The directories a walk opens can be listed. */
  ghost predicate Walkable(g: Geometry, v: Volume, p: Place, names: seq<seq<byte>>)
    decreases |names|
  {
    if names == [] then true
    else if names[0] == [DOT] then Walkable(g, v, p, names[1..])
    else
      p.isDirectory ==>
        Listable(g, v, p)
        && (Child(g, v, p, names[0]).Some? ==> Walkable(g, v, Child(g, v, p, names[0]).value, names[1..]))
  }

  /** Where a path leads from `p`: down the directory maps, with `.` staying where it is. */
  ghost function Walk(g: Geometry, v: Volume, p: Place, names: seq<seq<byte>>): Option<Place>
    requires Walkable(g, v, p, names)
    decreases |names|
  {
    if names == [] then Some(p)
    else if names[0] == [DOT] then Walk(g, v, p, names[1..])
    else if !p.isDirectory then None
    else
      var q := Child(g, v, p, names[0]);
      if q.None? then None else Walk(g, v, q.value, names[1..])
  }

  // ---- the loop ----

  /** A node of the kernel that stands at `p`. */
  ghost predicate StandsAt(fs: Fat32, node: FatNode, p: Place)
    reads fs, node
  {
    PlaceOf(node) == p && node.chain == Chain(fs.g, fs.vol, p)
  }

  method Step(fs: Fat32, node: FatNode, token: seq<byte>, ghost p: Place) returns (next: FatNode?)
    requires fs.Valid() && StandsAt(fs, node, p) && p.isDirectory && Listable(fs.g, fs.vol, p)
    ensures next == null <==> Child(fs.g, fs.vol, p, token).None?
    ensures next != null ==> StandsAt(fs, next, Child(fs.g, fs.vol, p, token).value)
  {
    hide Fat32.Valid, DirEntries, Listing, LowerAll, ChainFrom, IsChain, NoLongNames, StartCluster, FileSize, EntryIn;
    NodeAtPlace(fs, node, p);
    next := VnodeLookup(fs, node, token);
  }

  lemma NodeAtPlace(fs: Fat32, node: FatNode, p: Place)
    requires fs.Valid() && StandsAt(fs, node, p) && Listable(fs.g, fs.vol, p)
    ensures NodeReadable(fs, node)
  {
    hide Fat32.Valid, DirEntries, ChainFrom;
  }

  /** resolve_relative_path, from a node of the volume. */
  method ResolveRelative(fs: Fat32, start: FatNode, path: seq<byte>) returns (node: FatNode?)
    requires fs.Valid() && StandsAt(fs, start, PlaceOf(start)) && 0 !in path
    requires Walkable(fs.g, fs.vol, PlaceOf(start), Tokens(path))
    ensures node == null <==> Walk(fs.g, fs.vol, PlaceOf(start), Tokens(path)).None?
    ensures node != null ==> StandsAt(fs, node, Walk(fs.g, fs.vol, PlaceOf(start), Tokens(path)).value)
  {
    hide Fat32.Valid, Tokens, TokenLength, Unseparated, Walkable, Walk, Child, Listable, StandsAt;
    ghost var home, all := PlaceOf(start), Tokens(path);
    var p := path;
    while p != [] && p[0] == Paths.SLASH
      invariant Tokens(p) == all
      decreases |p|
    {
      LeadingSeparator(p);
      p := p[1..];
    }
    var curr: FatNode := start;
    ghost var at := home;
    while p != []
      invariant Walkable(fs.g, fs.vol, at, Tokens(p)) && StandsAt(fs, curr, at)
      invariant Walk(fs.g, fs.vol, at, Tokens(p)) == Walk(fs.g, fs.vol, home, all)
      decreases |p|
    {
      ghost var was := p;
      var token;
      token, p := NextToken(p);
      assert [] + Tokens(p) == Tokens(p);
      if token == [] { continue; }
      WalkOne(fs.g, fs.vol, at, token, Tokens(p));
      if token == [DOT] { continue; }
      DirectoryAt(fs, curr, at);
      if !curr.isDirectory { return null; }
      var next := Step(fs, curr, token, at);
      if next == null { return null; }
      at := Child(fs.g, fs.vol, at, token).value;
      curr := next;
    }
    WalkNone(fs.g, fs.vol, at);
    node := curr;
  }

  lemma LeadingSeparator(p: seq<byte>)
    requires p != [] && IsSeparator(p[0])
    ensures Tokens(p[1..]) == Tokens(p)
  {
    SeparatorsFirst(p[1..]);
    assert p[0..] == p;
    assert TokenLength(p, TOKEN) == 0;
  }

  /** Separators at the start make no difference. */
  lemma {:induction false} SeparatorsFirst(p: seq<byte>)
    ensures Tokens(Unseparated(p)) == Tokens(p)
    decreases |p|
  {
    if p != [] && IsSeparator(p[0]) {
      SeparatorsFirst(p[1..]);
      assert p[0..] == p && TokenLength(p, TOKEN) == 0;
      assert Unseparated(p) == Unseparated(p[1..]);
    }
  }

  lemma WalkOne(g: Geometry, v: Volume, p: Place, token: seq<byte>, rest: seq<seq<byte>>)
    requires Walkable(g, v, p, [token] + rest)
    ensures token == [DOT] ==> Walkable(g, v, p, rest) && Walk(g, v, p, [token] + rest) == Walk(g, v, p, rest)
    ensures token != [DOT] && !p.isDirectory ==> Walk(g, v, p, [token] + rest).None?
    ensures token != [DOT] && p.isDirectory ==> Listable(g, v, p)
    ensures token != [DOT] && p.isDirectory ==>
              var q := Child(g, v, p, token);
              if q.None? then Walk(g, v, p, [token] + rest).None?
              else Walkable(g, v, q.value, rest) && Walk(g, v, p, [token] + rest) == Walk(g, v, q.value, rest)
  {
    hide Child, Listable;
    assert ([token] + rest)[1..] == rest;
  }

  lemma WalkNone(g: Geometry, v: Volume, p: Place)
    ensures Walkable(g, v, p, Tokens([])) && Walk(g, v, p, Tokens([])) == Some(p)
  {
  }

  lemma DirectoryAt(fs: Fat32, node: FatNode, p: Place)
    requires StandsAt(fs, node, p)
    ensures node.isDirectory == p.isDirectory
  {
  }

  /** One round of the token loop: the next token, empty where the path starts with a separator, and the rest. */
  method NextToken(p: seq<byte>) returns (token: seq<byte>, rest: seq<byte>)
    requires p != []
    ensures |rest| < |p| && Tokens(p) == (if token == [] then [] else [token]) + Tokens(rest)
  {
    hide Tokens, Unseparated, TokenLength;
    token, rest := [], p;
    assert p[0..] == p;
    TokenEnds(p, 0);
    while rest != [] && !IsSeparator(rest[0]) && |token| < TOKEN
      invariant p == token + rest && |token| <= TOKEN
      invariant |token| + TokenLength(rest, TOKEN - |token|) == TokenLength(p, TOKEN)
      decreases |rest|
    {
      TokenNext(rest, TOKEN - |token|);
      token, rest := token + [rest[0]], rest[1..];
    }
    TokenStops(rest, TOKEN - |token|);
    assert p[..|token|] == token && p[|token|..] == rest;
    ghost var after := rest;
    while rest != [] && IsSeparator(rest[0])
      invariant Unseparated(rest) == Unseparated(after) && |rest| <= |after|
      decreases |rest|
    {
      OneSeparator(rest);
      rest := rest[1..];
    }
    NoSeparator(rest);
    TokensAre(p, token, after);
  }

  lemma TokenEnds(p: seq<byte>, n: nat)
    ensures [] + p == p
  {
  }

  lemma TokenNext(p: seq<byte>, room: nat)
    requires p != [] && !IsSeparator(p[0]) && room > 0
    ensures TokenLength(p, room) == 1 + TokenLength(p[1..], room - 1)
  {
  }

  lemma TokenStops(p: seq<byte>, room: nat)
    requires p == [] || IsSeparator(p[0]) || room == 0
    ensures TokenLength(p, room) == 0
  {
  }

  lemma OneSeparator(p: seq<byte>)
    requires p != [] && IsSeparator(p[0])
    ensures Unseparated(p) == Unseparated(p[1..])
  {
  }

  lemma NoSeparator(p: seq<byte>)
    requires p == [] || !IsSeparator(p[0])
    ensures Unseparated(p) == p
  {
  }

  lemma TokensAre(p: seq<byte>, token: seq<byte>, after: seq<byte>)
    requires p != [] && p == token + after && |token| == TokenLength(p, TOKEN)
    ensures Tokens(p) == (if token == [] then [] else [token]) + Tokens(Unseparated(after))
    ensures token == [] ==> |Unseparated(after)| < |p|
  {
    assert p[..|token|] == token && p[|token|..] == after;
  }

  // ---- tokens and components ----

  /** A component in pieces of 63 characters, but for the last. */
  function Pieces(c: seq<byte>): (ps: seq<seq<byte>>)
    ensures |c| <= 63 ==> ps == [c]
  {
    if |c| <= 63 then [c] else [c[..63]] + Pieces(c[63..])
  }

  function InPieces(cs: seq<seq<byte>>): seq<seq<byte>> {
    if cs == [] then [] else Pieces(cs[0]) + InPieces(cs[1..])
  }

  lemma SlashesNext(p: seq<byte>)
    ensures p == [] ==> Paths.Slashes(p) == []
    ensures p != [] ==>
              var q := Paths.Slashes(p);
              && q != [] && q[1..] == Paths.Slashes(p[1..]) && (q[0] == Paths.SLASH <==> IsSeparator(p[0]))
              && (!IsSeparator(p[0]) ==> q[0] == p[0])
  {
  }

  /** The characters up to the first separator are the first component. */
  lemma {:induction false} FirstComponent(p: seq<byte>, cur: seq<byte>)
    requires cur + p != [] && (p != [] && IsSeparator(p[0]) ==> cur != [])
    ensures var n := TokenLength(p, |p|);
            Paths.Parts(Paths.Slashes(p), cur) == [cur + p[..n]] + Paths.Parts(Paths.Slashes(p[n..]), [])
    decreases |p|
  {
    hide Paths.Slashes, IsSeparator;
    SlashesNext(p);
    if p == [] || IsSeparator(p[0]) {
      StopsHere(p, cur);
    } else {
      FirstComponent(p[1..], cur + [p[0]]);
      var n := TokenLength(p, |p|);
      assert cur + [p[0]] + p[1..][..n - 1] == cur + p[..n] && p[1..][n - 1..] == p[n..];
    }
  }

  lemma StopsHere(p: seq<byte>, cur: seq<byte>)
    requires cur != [] && (p == [] || IsSeparator(p[0]))
    ensures TokenLength(p, |p|) == 0 && cur + p[..0] == cur && p[0..] == p
    ensures Paths.Parts(Paths.Slashes(p), cur) == [cur] + Paths.Parts(Paths.Slashes(p), [])
  {
    hide Paths.Slashes;
    SlashesNext(p);
    var q := Paths.Slashes(p);
    if p != [] {
      assert Paths.Parts(q, []) == [] + Paths.Parts(q[1..], []);
    }
  }

  lemma {:induction false} TokenCut(p: seq<byte>, k: nat, room: nat)
    requires k <= room
    ensures TokenLength(p, k) == Min(k, TokenLength(p, room))
    ensures k <= TokenLength(p, room) ==> TokenLength(p[k..], room - k) == TokenLength(p, room) - k
    decreases |p|
  {
    if k == 0 {
      assert p[0..] == p;
    } else if p != [] && !IsSeparator(p[0]) {
      TokenCut(p[1..], k - 1, room - 1);
      if k <= TokenLength(p, room) {
        assert p[1..][k - 1..] == p[k..];
      }
    }
  }

  lemma InPiecesFirst(c: seq<byte>, cs: seq<seq<byte>>)
    ensures InPieces([c] + cs) == Pieces(c) + InPieces(cs)
  {
    assert ([c] + cs)[1..] == cs;
  }

  /** What a walk takes one by one are the components of the path, backslashes counting as slashes, those of more than
      63 characters in pieces. */
  lemma {:induction false} TokensArePieces(p: seq<byte>)
    ensures Tokens(p) == InPieces(Paths.Components(Paths.Slashes(p)))
    decreases |p|
  {
    hide Unseparated, TokenLength, Pieces, InPieces, Paths.Slashes, Paths.Parts;
    NoTokens(p);
    if p != [] {
      if IsSeparator(p[0]) {
        LeadingSeparator(p);
        TokensArePieces(p[1..]);
        SeparatorDropped(p);
      } else {
        FirstToken(p);
        var n := TokenLength(p, TOKEN);
        TokensArePieces(p[n..]);
        FirstPiece(p, n);
      }
    }
  }

  lemma NoTokens(p: seq<byte>)
    ensures p == [] ==> InPieces(Paths.Components(Paths.Slashes(p))) == []
  {
  }

  lemma SeparatorDropped(p: seq<byte>)
    requires p != [] && IsSeparator(p[0])
    ensures Paths.Components(Paths.Slashes(p)) == Paths.Components(Paths.Slashes(p[1..]))
  {
    assert Paths.Slashes(p)[1..] == Paths.Slashes(p[1..]);
    assert Paths.Components(Paths.Slashes(p)) == [] + Paths.Components(Paths.Slashes(p[1..]));
  }

  lemma FirstToken(p: seq<byte>)
    requires p != [] && !IsSeparator(p[0])
    ensures var n := TokenLength(p, TOKEN); n > 0 && Tokens(p) == [p[..n]] + Tokens(p[n..])
  {
    SeparatorsFirst(p[TokenLength(p, TOKEN)..]);
  }

  lemma FirstPiece(p: seq<byte>, n: nat)
    requires p != [] && !IsSeparator(p[0]) && n == TokenLength(p, TOKEN)
    ensures InPieces(Paths.Components(Paths.Slashes(p)))
            == [p[..n]] + InPieces(Paths.Components(Paths.Slashes(p[n..])))
  {
    hide InPieces, Paths.Slashes, Paths.Parts;
    var m := TokenLength(p, |p|);
    FirstComponent(p, []);
    InPiecesFirst(p[..m], Paths.Components(Paths.Slashes(p[m..])));
    assert [] + p[..m] == p[..m];
    if |p| < 63 {
      TokenCut(p, |p|, 63);
    } else {
      TokenCut(p, 63, |p|);
      if m > 63 {
        LongComponent(p, m);
      }
    }
  }

  /** Behind 63 characters a longer component goes on. */
  lemma LongComponent(p: seq<byte>, m: nat)
    requires 63 < m <= |p| && m - 63 == TokenLength(p[63..], |p[63..]|) && !IsSeparator(p[63])
    ensures InPieces([p[..m]] + Paths.Components(Paths.Slashes(p[m..])))
            == [p[..63]] + InPieces(Paths.Components(Paths.Slashes(p[63..])))
  {
    hide *;
    var r, c, rest := p[63..], p[..m], Paths.Components(Paths.Slashes(p[m..]));
    assert r[0] == p[63];
    CutTwice(p, m);
    GoesOn(r, m - 63);
    InPiecesSplit(c, p[..63], c[63..], rest);
  }

  lemma GoesOn(r: seq<byte>, n: nat)
    requires r != [] && n == TokenLength(r, |r|) && !IsSeparator(r[0])
    ensures Paths.Components(Paths.Slashes(r)) == [r[..n]] + Paths.Components(Paths.Slashes(r[n..]))
  {
    hide Paths.Slashes, Paths.Parts, TokenLength, IsSeparator;
    FirstComponent(r, []);
    assert [] + r[..n] == r[..n];
  }

  lemma InPiecesSplit(c: seq<byte>, x: seq<byte>, y: seq<byte>, rest: seq<seq<byte>>)
    requires Pieces(c) == [x] + Pieces(y)
    ensures InPieces([c] + rest) == [x] + InPieces([y] + rest)
  {
    hide *;
    InPiecesFirst(c, rest);
    InPiecesFirst(y, rest);
  }

  lemma CutTwice(p: seq<byte>, m: nat)
    requires 63 < m <= |p|
    ensures p[63..][..m - 63] == p[..m][63..] && p[63..][m - 63..] == p[m..]
    ensures Pieces(p[..m]) == [p[..63]] + Pieces(p[..m][63..])
  {
    assert p[..m][..63] == p[..63];
  }

  /** The path has no backslash and no component of more than 63 characters. */
  ghost predicate Plain(p: seq<byte>) {
    Paths.BACKSLASH !in p && forall i :: 0 <= i < |Paths.Components(p)| ==> |Paths.Components(p)[i]| <= 63
  }

  lemma {:induction false} WholePieces(cs: seq<seq<byte>>)
    requires forall i :: 0 <= i < |cs| ==> |cs[i]| <= 63
    ensures InPieces(cs) == cs
  {
    if cs != [] {
      WholePieces(cs[1..]);
    }
  }

  /** For plain paths tokens are components. */
  lemma TokensAreComponents(p: seq<byte>)
    requires Plain(p)
    ensures Tokens(p) == Paths.Components(p)
  {
    TokensArePieces(p);
    assert Paths.Slashes(p) == p;
    WholePieces(Paths.Components(p));
  }
}
