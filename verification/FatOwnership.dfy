/**
 Which file owns which cluster, over every run of creation, writing and removal of files and directories.
 A state is the table of links, the chain of every file and directory that an entry on disk leads to, and the
 directory that entry lies in; the steps are what the driver's operations do to them (FatDirOps, FatWrite).
*/
module FatOwnership {
  import opened Bytes
  import opened FatTable
  import opened FatChains
  import opened FatContents
  import opened FatWrite

  /** Files and directories are numbered; `home` is the directory of each but the root. */
  datatype State = State(table: seq<nat>, chains: map<nat, seq<nat>>, home: map<nat, nat>)

  ghost predicate Disjoint(a: seq<nat>, b: seq<nat>) {
    forall c :: c in a ==> c !in b
  }

  /** All chains are complete (hence finite, in range and without repetition) and pairwise disjoint. */
  ghost predicate WellOwned(g: Geometry, s: State) {
    && g.Valid() && |s.table| == g.Entries() && LinksInRange(g, s.table)
    && (forall id :: id in s.chains ==> s.chains[id] == [] || IsChain(g, s.table, s.chains[id]))
    && (forall i, j :: i in s.chains && j in s.chains && i != j ==> Disjoint(s.chains[i], s.chains[j]))
    && (forall id :: id in s.home ==> id in s.chains && s.home[id] in s.chains)
  }

  function Free(t: seq<nat>): (f: set<nat>) {
    set c | 2 <= c < |t| && t[c] == FREE
  }

  ghost predicate Owned(s: State, c: nat) {
    exists id :: id in s.chains && c in s.chains[id]
  }

  /** Clusters marked in use that no file can reach. */
  ghost function Lost(s: State): set<nat> {
    set c | 2 <= c < |s.table| && s.table[c] != FREE && !Owned(s, c)
  }

  /** A new file in directory `dir` gets the lowest free cluster (kernel/fs/fat32.cpp:654). */
  ghost predicate Create(g: Geometry, s: State, s': State, dir: nat, id: nat, c: nat) {
    dir in s.chains && id !in s.chains && s'.home == s.home[id := dir] && c != 0 && IsLowestFree(s.table, c)
        && s'.table == s.table[c := EOC] && s'.chains == s.chains[id := [c]]
  }

  /** A write, or a directory taking one more cluster: one chain grows by clusters that were free. */
  ghost predicate Grow(g: Geometry, s: State, s': State, id: nat) {
    && id in s.chains && id in s'.chains && s'.chains == s.chains[id := s'.chains[id]] && s'.home == s.home
    && |s'.table| == |s.table|
    && s.chains[id] <= s'.chains[id] && (s'.chains[id] == [] || IsChain(g, s'.table, s'.chains[id]))
    && (forall i :: |s.chains[id]| <= i < |s'.chains[id]| ==> s.table[s'.chains[id][i]] == FREE)
    && (forall c :: 0 <= c < |s.table| && c !in s'.chains[id] ==> s'.table[c] == s.table[c])
  }

  /** The directory `n` levels up. */
  function Up(home: map<nat, nat>, id: nat, n: nat): nat {
    if n == 0 then id
    else
      var up := Up(home, id, n - 1);
      if up in home then home[up] else up
  }

  ghost predicate Under(home: map<nat, nat>, id: nat, dir: nat) {
    exists n: nat :: Up(home, id, n) == dir
  }

  /** A directory with all that lies in it, at any depth; a file is its own. */
  ghost function Subtree(s: State, id: nat): set<nat> {
    set x | x in s.chains && Under(s.home, x, id)
  }

  /** Removing a file or directory frees what is reachable from its first cluster, if it has one; nothing leads to what
      was in the directory any more. */
  ghost predicate Remove(s: State, s': State, id: nat) {
    && id in s.chains && s'.chains == s.chains - Subtree(s, id) && s'.home == s.home - Subtree(s, id)
    && if s.chains[id] == [] then s'.table == s.table else FreedAll(s.table, s'.table, s.chains[id][0])
  }

  /** The clusters of what was in a removed directory. */
  ghost function Stranded(s: State, id: nat): set<nat> {
    set x, c | x in s.chains && x in Subtree(s, id) - {id} && c in s.chains[x] :: c
  }

  /** The lowest free cluster is marked in use for a file that no entry leads to. */
  ghost predicate Forfeit(g: Geometry, s: State, s': State, c: nat) {
    c != 0 && IsLowestFree(s.table, c) && s'.table == s.table[c := EOC] && s'.chains == s.chains && s'.home == s.home
  }

  /** What a program asks of the driver.  `hasSlot` says whether directory `dir` has an unused entry, `hidden` whether
      the name starts with the byte that marks an entry deleted. */
  datatype Call = CreateFile(dir: nat, id: nat, hasSlot: bool, hidden: bool) | WriteFile(id: nat) | RemoveFile(id: nat)

  /** A creation fails and keeps the cluster it took: some cluster is free, the directory has no slot, and it cannot
      grow, because it has no chain or because the new file gets the last free cluster. */
  ghost predicate Leaks(t: seq<nat>, dirChain: seq<nat>, hasSlot: bool) {
    Free(t) != {} && !hasSlot && (dirChain == [] || |Free(t)| == 1)
  }

  /** A call after which more clusters are in use that no entry leads to: a creation that leaks, or one under a name
      that reads as deleted as long as any cluster is free, or the removal of a directory with something in it. */
  ghost predicate LosingCall(s: State, call: Call) {
    match call
    case CreateFile(dir, id, hasSlot, hidden) =>
      dir in s.chains && Free(s.table) != {} && (hidden || Leaks(s.table, s.chains[dir], hasSlot))
    case WriteFile(id) => false
    case RemoveFile(id) => exists x :: x in s.chains && x in Subtree(s, id) - {id} && s.chains[x] != []
  }

  /** How many clusters such a call loses. */
  ghost function Losses(s: State, call: Call): nat {
    if !LosingCall(s, call) then 0 else if call.RemoveFile? then |Stranded(s, call.id)| else 1
  }

  /** How many clusters a creation sets out to take. */
  function CreateTakes(dirChain: seq<nat>, hasSlot: bool): nat {
    if dirChain == [] || hasSlot then 1 else 2
  }

  /** A call that stays in the data area, with its outcome. */
  ghost predicate Performs(g: Geometry, call: Call, s: State, s': State) {
    match call
    case CreateFile(dir, id, hasSlot, hidden) =>
      dir in s.chains && id !in s.chains && Room(g, s.table, CreateTakes(s.chains[dir], hasSlot))
      && (if Free(s.table) == {} then s' == s
          else if Leaks(s.table, s.chains[dir], hasSlot) then exists c :: Forfeit(g, s, s', c)
          else if hidden then exists s1, c :: Forfeit(g, s, s1, c) && Grow(g, s1, s', dir)
          else exists s1, c :: Create(g, s, s1, dir, id, c) && Grow(g, s1, s', dir))
    case WriteFile(id) => Grow(g, s, s', id)
    case RemoveFile(id) => Remove(s, s', id)
  }

  ghost predicate Run(g: Geometry, calls: seq<Call>, states: seq<State>) {
    && |states| == |calls| + 1 && WellOwned(g, states[0])
    && forall k :: 0 <= k < |calls| ==> Performs(g, calls[k], states[k], states[k + 1])
  }

  lemma FreeNotOwned(g: Geometry, s: State, c: nat)
    requires WellOwned(g, s) && c in Free(s.table)
    ensures !Owned(s, c)
  {
    forall id | id in s.chains && c in s.chains[id]
      ensures false
    {
      InChainUsed(g, s.table, s.chains[id], c);
    }
  }

  /** A chain survives any change of the table outside it. */
  lemma ChainSurvives(g: Geometry, t: seq<nat>, t': seq<nat>, cs: seq<nat>)
    requires IsChain(g, t, cs) && |t'| == |t|
    requires forall c :: c in cs && c < |t| ==> t'[c] == t[c]
    ensures IsChain(g, t', cs)
  {
    forall i | 0 <= i < |cs|
      ensures t'[cs[i]] == t[cs[i]]
    {
      assert cs[i] in cs;
    }
  }

  lemma ChainLinksInRange(g: Geometry, t: seq<nat>, cs: seq<nat>, c: nat)
    requires IsChain(g, t, cs) && c in cs
    ensures LinkInRange(g, t[c]) && t[c] != FREE && c < g.End()
  {
    var i :| 0 <= i < |cs| && cs[i] == c;
    assert i < |cs| - 1 ==> t[cs[i]] == cs[i + 1];
  }

  lemma TakeKeeps(g: Geometry, s: State, c: nat)
    requires WellOwned(g, s) && c != 0 && IsLowestFree(s.table, c)
    ensures IsChain(g, s.table[c := EOC], [c]) <==> c < g.End()
    ensures forall id :: id in s.chains ==> c !in s.chains[id]
                                            && (s.chains[id] == [] || IsChain(g, s.table[c := EOC], s.chains[id]))
    ensures LinksInRange(g, s.table[c := EOC])
  {
    assert c in Free(s.table);
    FreeNotOwned(g, s, c);
    forall id | id in s.chains
      ensures c !in s.chains[id] && (s.chains[id] == [] || IsChain(g, s.table[c := EOC], s.chains[id]))
    {
      if s.chains[id] != [] {
        ChainSurvives(g, s.table, s.table[c := EOC], s.chains[id]);
      }
    }
  }

  /** A new file keeps ownership exact precisely when the allocator stays in the data area. */
  lemma CreateKeepsIff(g: Geometry, s: State, s': State, dir: nat, id: nat, c: nat)
    requires WellOwned(g, s) && Create(g, s, s', dir, id, c)
    ensures WellOwned(g, s') <==> Allocatable(g, s.table)
    ensures Free(s'.table) == Free(s.table) - {c} && c in Free(s.table)
    ensures Lost(s') == Lost(s)
  {
    hide IsChain, LinksInRange, Allocatable, Lost;
    TakeKeeps(g, s, c);
    AllocatableIff(g, s.table, c);
    CreateLosesNothing(g, s, s', dir, id, c);
    assert id in s'.chains && s'.chains[id] == [c];
  }

  lemma CreateLosesNothing(g: Geometry, s: State, s': State, dir: nat, id: nat, c: nat)
    requires |s.table| == g.Entries() && Create(g, s, s', dir, id, c)
    ensures Lost(s') == Lost(s)
  {
    forall x: nat
      ensures Owned(s', x) <==> Owned(s, x) || x == c
    {
      if Owned(s, x) {
        var j :| j in s.chains && x in s.chains[j];
        assert j in s'.chains && s'.chains[j] == s.chains[j];
      }
      if Owned(s', x) {
        var j :| j in s'.chains && x in s'.chains[j];
        assert if j == id then x in [c] else j in s.chains && x in s.chains[j];
      }
      assert id in s'.chains && c in s'.chains[id];
    }
  }

  lemma ForfeitKeeps(g: Geometry, s: State, s': State, c: nat)
    requires WellOwned(g, s) && Forfeit(g, s, s', c)
    ensures WellOwned(g, s')
    ensures Free(s'.table) == Free(s.table) - {c}
    ensures Lost(s') == Lost(s) + {c} && c !in Lost(s)
  {
    TakeKeeps(g, s, c);
    assert c in Free(s.table);
    FreeNotOwned(g, s, c);
    forall x
      ensures x in Lost(s') <==> x in Lost(s) || x == c
    {
      assert Owned(s', x) <==> Owned(s, x);
    }
  }

  /** The clusters a growing chain gains were free and owned by nobody. */
  lemma GrowFacts(g: Geometry, s: State, s': State, id: nat)
    requires WellOwned(g, s) && Grow(g, s, s', id)
    ensures forall c :: c in s'.chains[id] ==> c in s.chains[id] || c in Free(s.table)
    ensures forall j, c :: j in s.chains && j != id && c in s.chains[j] ==> c !in s'.chains[id]
    ensures forall c :: c in s.chains[id] ==> c in s'.chains[id]
  {
    var cs, cs' := s.chains[id], s'.chains[id];
    forall c | c in cs'
      ensures c in cs || c in Free(s.table)
    {
      var i :| 0 <= i < |cs'| && cs'[i] == c;
      if i < |cs| {
        assert cs[i] == cs'[i];
      }
    }
    forall j, c | j in s.chains && j != id && c in s.chains[j]
      ensures c !in cs'
    {
      assert Disjoint(s.chains[j], cs);
      if c in Free(s.table) {
        FreeNotOwned(g, s, c);
      }
    }
    forall c | c in cs
      ensures c in cs'
    {
      var i :| 0 <= i < |cs| && cs[i] == c;
      assert cs'[i] == c;
    }
  }

  lemma GrowKeeps(g: Geometry, s: State, s': State, id: nat)
    requires WellOwned(g, s) && Grow(g, s, s', id)
    ensures WellOwned(g, s')
    ensures Free(s'.table) == Free(s.table) - set c | c in s'.chains[id]
    ensures Lost(s') == Lost(s)
  {
    hide IsChain, Lost, Free;
    GrowLinks(g, s, s', id);
    GrowLosesNothing(g, s, s', id);
    GrowFacts(g, s, s', id);
    forall j | j in s'.chains && j != id
      ensures s'.chains[j] == s.chains[j] && (s'.chains[j] == [] || IsChain(g, s'.table, s'.chains[j]))
    {
      if s.chains[j] != [] {
        ChainSurvives(g, s.table, s'.table, s.chains[j]);
      }
    }
  }

  lemma GrowLinks(g: Geometry, s: State, s': State, id: nat)
    requires WellOwned(g, s) && Grow(g, s, s', id)
    ensures LinksInRange(g, s'.table) && Free(s'.table) == Free(s.table) - set c | c in s'.chains[id]
  {
    hide IsChain;
    forall c | 0 <= c < |s'.table|
      ensures LinkInRange(g, s'.table[c]) && (c in s'.chains[id] ==> s'.table[c] != FREE)
    {
      if c in s'.chains[id] {
        ChainLinksInRange(g, s'.table, s'.chains[id], c);
      }
    }
  }

  lemma GrowLosesNothing(g: Geometry, s: State, s': State, id: nat)
    requires WellOwned(g, s) && Grow(g, s, s', id)
    ensures Lost(s') == Lost(s)
  {
    hide IsChain, WellOwned, LinksInRange;
    GrowFacts(g, s, s', id);
    GrowLinks(g, s, s', id);
    forall x: nat
      ensures x in Lost(s') <==> x in Lost(s)
    {
      assert x in Free(s'.table) <==> x in Free(s.table) && x !in s'.chains[id];
      GrowOwns(s, s', id, x);
    }
  }

  lemma GrowOwns(s: State, s': State, id: nat, x: nat)
    requires id in s.chains && id in s'.chains && s'.chains == s.chains[id := s'.chains[id]]
    requires x in s.chains[id] ==> x in s'.chains[id]
    ensures Owned(s', x) <==> Owned(s, x) || x in s'.chains[id]
  {
    if Owned(s, x) {
      var j :| j in s.chains && x in s.chains[j];
      assert x in s'.chains[j];
    }
    if Owned(s', x) {
      var j :| j in s'.chains && x in s'.chains[j];
      assert j == id || x in s.chains[j];
    }
  }

  lemma {:induction false} UpShift(home: map<nat, nat>, id: nat, n: nat)
    requires id in home
    ensures Up(home, home[id], n) == Up(home, id, n + 1)
  {
    if n > 0 {
      UpShift(home, id, n - 1);
    } else {
      assert Up(home, id, 0) == id;
    }
  }

  /** What lies in a directory of the subtree lies in the subtree. */
  lemma SubtreeClosed(s: State, id: nat)
    requires forall x :: x in s.home ==> x in s.chains && s.home[x] in s.chains
    ensures id in s.chains ==> id in Subtree(s, id)
    ensures forall x :: x in s.home && s.home[x] in Subtree(s, id) ==> x in Subtree(s, id)
  {
    assert Up(s.home, id, 0) == id;
    forall x | x in s.home && s.home[x] in Subtree(s, id)
      ensures x in Subtree(s, id)
    {
      var n: nat :| Up(s.home, s.home[x], n) == id;
      UpShift(s.home, x, n);
    }
  }

  /** Removing a file gives back its chain's clusters and nothing else; removing a directory loses those of what is in
      it. */
  lemma RemoveKeeps(g: Geometry, s: State, s': State, id: nat)
    requires WellOwned(g, s) && Remove(s, s', id)
    ensures WellOwned(g, s')
    ensures Free(s'.table) == Free(s.table) + set c | c in s.chains[id]
    ensures Lost(s') == Lost(s) + Stranded(s, id) && Lost(s) !! Stranded(s, id)
  {
    hide Subtree;
    var cs := s.chains[id];
    SubtreeClosed(s, id);
    TableAfterRemoval(g, s, s', id);
    forall j | j in s'.chains
      ensures s'.chains[j] == s.chains[j] && (s'.chains[j] == [] || IsChain(g, s'.table, s'.chains[j]))
    {
      assert Disjoint(s.chains[j], cs);
      if s.chains[j] != [] {
        ChainSurvives(g, s.table, s'.table, s.chains[j]);
      }
    }
    RemovalLosses(g, s, s', id);
  }

  lemma TableAfterRemoval(g: Geometry, s: State, s': State, id: nat)
    requires WellOwned(g, s) && Remove(s, s', id)
    ensures |s'.table| == |s.table|
    ensures forall c :: 0 <= c < |s.table| ==> s'.table[c] == if c in s.chains[id] then FREE else s.table[c]
    ensures forall c :: c in s.chains[id] ==> 2 <= c < g.End() && c < |s.table| && s.table[c] != FREE
  {
    hide Subtree;
    var cs := s.chains[id];
    forall c | 0 <= c < |s.table|
      ensures |s'.table| == |s.table| && s'.table[c] == if c in cs then FREE else s.table[c]
    {
      if cs != [] {
        ChainReachable(g, s.table, cs, c);
      }
    }
    forall c | c in cs
      ensures 2 <= c < g.End() && c < |s.table| && s.table[c] != FREE
    {
      InChainUsed(g, s.table, cs, c);
      ChainLinksInRange(g, s.table, cs, c);
    }
  }

  lemma RemovalLosses(g: Geometry, s: State, s': State, id: nat)
    requires WellOwned(g, s) && Remove(s, s', id) && id in Subtree(s, id)
    ensures Lost(s') == Lost(s) + Stranded(s, id) && Lost(s) !! Stranded(s, id)
  {
    hide Subtree;
    TableAfterRemoval(g, s, s', id);
    forall x: nat
      ensures x in Stranded(s, id) ==> x !in Lost(s) && 2 <= x < |s.table| && s.table[x] != FREE && x !in s.chains[id]
      ensures x in Lost(s') <==> x in Lost(s) || x in Stranded(s, id)
    {
      if x in Stranded(s, id) {
        var j :| j in s.chains && j in Subtree(s, id) - {id} && x in s.chains[j];
        assert Disjoint(s.chains[j], s.chains[id]);
        InChainUsed(g, s.table, s.chains[j], x);
        assert Owned(s, x);
        StrandedNotOwned(g, s, s', id, j, x);
      } else if x !in s.chains[id] {
        OwnedStays(s, s', id, x);
      } else {
        assert Owned(s, x);
      }
    }
  }

  lemma StrandedNotOwned(g: Geometry, s: State, s': State, id: nat, j: nat, x: nat)
    requires WellOwned(g, s) && s'.chains == s.chains - Subtree(s, id) && j in s.chains && j in Subtree(s, id)
             && x in s.chains[j]
    ensures !Owned(s', x)
  {
    hide Subtree;
    forall i | i in s'.chains
      ensures x !in s'.chains[i]
    {
      assert Disjoint(s.chains[j], s.chains[i]);
    }
  }

  lemma OwnedStays(s: State, s': State, id: nat, x: nat)
    requires s'.chains == s.chains - Subtree(s, id) && x !in Stranded(s, id) && (id in s.chains ==> x !in s.chains[id])
    ensures Owned(s', x) <==> Owned(s, x)
  {
    hide Subtree;
    if Owned(s, x) {
      var j :| j in s.chains && x in s.chains[j];
      assert j in s'.chains && s'.chains[j] == s.chains[j];
    }
    if Owned(s', x) {
      var j :| j in s'.chains && x in s'.chains[j];
      assert x in s.chains[j];
    }
  }

  // ---- whole runs ----

  /** What one call does to ownership: chains stay complete and disjoint, and exactly the clusters `Losses` counts are
      lost. */
  lemma PerformsKeeps(g: Geometry, call: Call, s: State, s': State)
    requires WellOwned(g, s) && Performs(g, call, s, s')
    ensures WellOwned(g, s') && Lost(s) <= Lost(s')
    ensures |Lost(s')| == |Lost(s)| + Losses(s, call)
  {
    hide WellOwned, Create, Grow, Remove, Forfeit, Lost, Leaks, Free, Allocatable, Room, Stranded, Subtree;
    match call
    case CreateFile(dir, id, hasSlot, hidden) =>
      RoomAllocates(g, s.table, CreateTakes(s.chains[dir], hasSlot));
      if Free(s.table) == {} {
      } else if Leaks(s.table, s.chains[dir], hasSlot) {
        var c :| Forfeit(g, s, s', c);
        ForfeitKeeps(g, s, s', c);
      } else if hidden {
        var s1, c :| Forfeit(g, s, s1, c) && Grow(g, s1, s', dir);
        ForfeitKeeps(g, s, s1, c);
        GrowKeeps(g, s1, s', dir);
      } else {
        var s1, c :| Create(g, s, s1, dir, id, c) && Grow(g, s1, s', dir);
        CreateKeepsIff(g, s, s1, dir, id, c);
        GrowKeeps(g, s1, s', dir);
      }
    case WriteFile(id) => GrowKeeps(g, s, s', id);
    case RemoveFile(id) =>
      RemoveKeeps(g, s, s', id);
      StrandedIff(s, id);
  }

  /** A removal strands clusters exactly when something in the directory has a chain. */
  lemma StrandedIff(s: State, id: nat)
    ensures Stranded(s, id) != {} <==> LosingCall(s, RemoveFile(id))
  {
    hide Subtree;
    if x :| x in s.chains && x in Subtree(s, id) - {id} && s.chains[x] != [] {
      var c := s.chains[x][0];
      assert c in s.chains[x] && c in Stranded(s, id);
    }
  }

  /** How many clusters the first `i` calls lose. */
  ghost function LossesBy(calls: seq<Call>, states: seq<State>, i: nat): nat
    requires i <= |calls| && |states| == |calls| + 1
  {
    if i == 0 then 0 else LossesBy(calls, states, i - 1) + Losses(states[i - 1], calls[i - 1])
  }

  /** In every state of every run the chains are complete and pairwise disjoint and hold no free cluster, and just the
      clusters are lost that the calls so far lose. */
  lemma {:induction false} RunsKeepOwnership(g: Geometry, calls: seq<Call>, states: seq<State>, i: nat)
    requires Run(g, calls, states) && i <= |calls|
    ensures WellOwned(g, states[i])
    ensures forall c :: c in Free(states[i].table) ==> !Owned(states[i], c)
    ensures Lost(states[0]) <= Lost(states[i]) && |Lost(states[i])| == |Lost(states[0])| + LossesBy(calls, states, i)
  {
    hide WellOwned, Performs, Lost, Losses, Free, Owned;
    if i > 0 {
      RunsKeepOwnership(g, calls, states, i - 1);
      PerformsKeeps(g, calls[i - 1], states[i - 1], states[i]);
    }
    forall c | c in Free(states[i].table)
      ensures !Owned(states[i], c)
    {
      FreeNotOwned(g, states[i], c);
    }
  }

  /** A run loses nothing exactly when no call in it meets the losing condition. */
  lemma {:induction false} RunsLoseNothingIff(g: Geometry, calls: seq<Call>, states: seq<State>, i: nat)
    requires Run(g, calls, states) && i <= |calls|
    ensures Lost(states[i]) == Lost(states[0]) <==> forall k :: 0 <= k < i ==> !LosingCall(states[k], calls[k])
  {
    hide WellOwned, Performs, Lost, LosingCall;
    RunsKeepOwnership(g, calls, states, i);
    NoLosses(calls, states, i);
    SameSize(Lost(states[0]), Lost(states[i]));
  }

  lemma {:induction false} NoLosses(calls: seq<Call>, states: seq<State>, i: nat)
    requires i <= |calls| && |states| == |calls| + 1
    ensures LossesBy(calls, states, i) == 0 <==> forall k :: 0 <= k < i ==> !LosingCall(states[k], calls[k])
  {
    hide LosingCall, Losses;
    if i > 0 {
      NoLosses(calls, states, i - 1);
      LossesIff(states[i - 1], calls[i - 1]);
    }
  }

  lemma LossesIff(s: State, call: Call)
    ensures Losses(s, call) == 0 <==> !LosingCall(s, call)
  {
    hide LosingCall, Stranded;
    if call.RemoveFile? {
      StrandedIff(s, call.id);
    }
  }

  lemma SameSize<T>(a: set<T>, b: set<T>)
    requires a <= b
    ensures a == b <==> |a| == |b|
  {
    assert |b| == |a| + |b - a|;
  }

  /** The clusters taken from the data area in the first `i` steps. */
  ghost function TakenBy(g: Geometry, states: seq<State>, i: nat): nat
    requires i < |states|
  {
    if i == 0 then 0 else TakenBy(g, states, i - 1) + |FreeData(g, states[i - 1].table) - FreeData(g, states[i].table)|
  }

  /** Room at the start of a run, less what was taken, is room later: the calls of a run stay in the data area when
      no entry past it is free at the start, or when they take no more clusters than were free there. */
  lemma {:induction false} RoomAlongRun(g: Geometry, calls: seq<Call>, states: seq<State>, i: nat, n: int)
    requires Run(g, calls, states) && i <= |calls| && Room(g, states[0].table, n)
    ensures Room(g, states[i].table, n - TakenBy(g, states, i))
    ensures FreeInData(g, states[0].table) ==> FreeInData(g, states[i].table)
  {
    hide WellOwned, Performs, FreeInData, FreeData;
    if i > 0 {
      RoomAlongRun(g, calls, states, i - 1, n);
      RunsKeepOwnership(g, calls, states, i - 1);
      if FreeInData(g, states[i - 1].table) {
        PerformsKeepsOutside(g, calls[i - 1], states[i - 1], states[i]);
      }
      LeftOver(FreeData(g, states[i - 1].table), FreeData(g, states[i].table));
    }
  }

  lemma LeftOver<T>(a: set<T>, b: set<T>)
    ensures |a| - |a - b| <= |b|
  {
    assert |a| == |a - b| + |a * b|;
    assert |b| == |a * b| + |b - a|;
  }

  /** No call frees an entry past the data area. */
  lemma PerformsKeepsOutside(g: Geometry, call: Call, s: State, s': State)
    requires WellOwned(g, s) && Performs(g, call, s, s') && FreeInData(g, s.table)
    ensures FreeInData(g, s'.table)
  {
    hide Room, Allocatable, Leaks, WellOwned, Grow, Remove, Free;
    match call
    case CreateFile(dir, id, hasSlot, hidden) =>
      RoomAllocates(g, s.table, CreateTakes(s.chains[dir], hasSlot));
      if Free(s.table) != {} && !Leaks(s.table, s.chains[dir], hasSlot) {
        if hidden {
          var s1, c :| Forfeit(g, s, s1, c) && Grow(g, s1, s', dir);
          ForfeitKeeps(g, s, s1, c);
          GrowKeepsOutside(g, s1, s', dir);
        } else {
          var s1, c :| Create(g, s, s1, dir, id, c) && Grow(g, s1, s', dir);
          CreateKeepsIff(g, s, s1, dir, id, c);
          GrowKeepsOutside(g, s1, s', dir);
        }
      }
    case WriteFile(id) => GrowKeepsOutside(g, s, s', id);
    case RemoveFile(id) => RemoveKeepsOutside(g, s, s', id);
  }

  lemma GrowKeepsOutside(g: Geometry, s: State, s': State, id: nat)
    requires WellOwned(g, s) && Grow(g, s, s', id) && FreeInData(g, s.table)
    ensures FreeInData(g, s'.table)
  {
    forall c | g.End() <= c < |s'.table|
      ensures s'.table[c] != FREE
    {
      if c in s'.chains[id] {
        ChainLinksInRange(g, s'.table, s'.chains[id], c);
      }
    }
  }

  lemma RemoveKeepsOutside(g: Geometry, s: State, s': State, id: nat)
    requires WellOwned(g, s) && Remove(s, s', id) && FreeInData(g, s.table)
    ensures FreeInData(g, s'.table)
  {
    forall c | g.End() <= c < |s'.table|
      ensures s'.table[c] != FREE
    {
      if s.chains[id] != [] {
        ChainReachable(g, s.table, s.chains[id], c);
      }
    }
  }

  /** What VnodeWrite does to the volume is a Grow step, and every other file keeps its chain and contents. */
  lemma WriteIsGrow(g: Geometry, v: Volume, v': Volume, chains: map<nat, seq<nat>>, home: map<nat, nat>, id: nat,
                    cs': seq<nat>, dir: nat, other: nat)
    requires WellOwned(g, State(v.table, chains, home)) && id in chains && other in chains && other != id
    requires Extended(g, v, v', chains[id], cs', dir) && dir !in chains[other]
    ensures Grow(g, State(v.table, chains, home), State(v'.table, chains[id := cs'], home), id)
    ensures InData(v, chains[other]) && InData(v', chains[other])
    ensures chains[other] == [] || IsChain(g, v'.table, chains[other])
    ensures Contents(v', chains[other]) == Contents(v, chains[other])
  {
    var s, s' := State(v.table, chains, home), State(v'.table, chains[id := cs'], home);
    assert s'.chains == s.chains[id := s'.chains[id]];
    GrowFacts(g, s, s', id);
    GrowKeeps(g, s, s', id);
    assert s'.chains[other] == chains[other];
    forall i | 0 <= i < |chains[other]|
      ensures v'.data[chains[other][i] - 2] == v.data[chains[other][i] - 2]
    {
      assert chains[other][i] in chains[other];
    }
    ContentsSame(v, v', chains[other]);
  }
}
