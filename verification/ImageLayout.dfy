/**
 What tools/package_toolchain_disk.py decides before it writes a byte: which directory and name
 a path stands for, which clusters each file gets, and which records the directories hold.
*/
module ImageLayout {
  import opened Bytes
  import opened FatTable
  import opened FatChains
  import opened FatContents
  import opened FatDirent
  import opened FatNames
  import opened FatDirectory
  import Paths

  const CLUSTER := 4096
  const END_MARK := 0x0FFF_FFFF
  const ROOT := 2
  const FIRST_FILE := 7  // after two reserved entries, the root and four directories

  /** The volume at sector 2048 + 32: eight sectors a cluster, two tables of 256 sectors. */
  const IMAGE := Geometry(8, 2080, 256, 2, 7868)

  lemma ImageGeometry()
    ensures IMAGE.Valid() && IMAGE.Bpc() == CLUSTER && IMAGE.Entries() == 32768 && IMAGE.End() == 7870
    ensures IMAGE.DataStart() == 2592 && IMAGE.Total() == 65536
  {
  }

  lemma ImageOffset(c: nat)
    requires 2 <= c < IMAGE.End()
    ensures IMAGE.ClusterOffset(c) == 2592 * SECTOR + (c - 2) * CLUSTER <= 65536 * SECTOR - CLUSTER
  {
  }

  // ---- paths ----

  const BIN: seq<byte> := [0x42, 0x49, 0x4E]
  const LIB: seq<byte> := [0x4C, 0x49, 0x42]
  const INCLUDE: seq<byte> := [0x49, 0x4E, 0x43, 0x4C, 0x55, 0x44, 0x45]
  const HOME: seq<byte> := [0x48, 0x4F, 0x4D, 0x45]

  function PathParts(path: seq<byte>): seq<seq<byte>> { Paths.Components(UpperAll(path)) }

  /** The directory a path goes to: 0 the root, 1-4 the known directories, -1 one that is not made. */
  function DirectoryOf(parts: seq<seq<byte>>): (d: int)
    requires parts != []
    ensures -1 <= d < 5
  {
    if |parts| == 1 then 0
    else if parts[0] == BIN then 1
    else if parts[0] == LIB then 2
    else if parts[0] == INCLUDE then 3
    else if parts[0] == HOME then 4
    else -1
  }

  function FileNameOf(parts: seq<seq<byte>>): seq<byte>
    requires parts != []
  {
    if |parts| == 1 then parts[0] else parts[1]
  }

  // ---- names ----

  /** The first dot at or after position `i`, or the length. */
  function NextDot(s: seq<byte>, i: nat): (d: nat)
    requires i <= |s|
    ensures i <= d <= |s| && (d < |s| ==> s[d] == DOT) && forall k :: i <= k < d ==> s[k] != DOT
    decreases |s| - i
  {
    if i == |s| || s[i] == DOT then i else NextDot(s, i + 1)
  }

  predicate OneDotAtMost(s: seq<byte>) {
    NextDot(s, 0) == |s| || NextDot(s, NextDot(s, 0) + 1) == |s|
  }

  function FirstPart(s: seq<byte>): seq<byte> { s[..NextDot(s, 0)] }

  function SecondPart(s: seq<byte>): seq<byte> {
    var d := NextDot(s, 0);
    if d == |s| then [] else s[d + 1..NextDot(s, d + 1)]
  }

  /** The eleven bytes write_83_dirent stores: the text before the first dot and that before the second. */
  function BuilderName(s: seq<byte>): (r: seq<byte>)
    ensures |r| == 11
  {
    PadTo(UpperAll(Cut(FirstPart(s), 8)), 8) + PadTo(UpperAll(Cut(SecondPart(s), 3)), 3)
  }

  lemma LastDotUnique(s: seq<byte>, d: int)
    requires -1 <= d < |s| && (d >= 0 ==> s[d] == DOT) && forall k :: d < k < |s| ==> s[k] != DOT
    ensures LastDot(s, |s|) == d
  {
  }

  lemma OneDot(s: seq<byte>)
    requires OneDotAtMost(s)
    ensures LastDot(s, |s|) == if NextDot(s, 0) == |s| then -1 else NextDot(s, 0)
  {
    hide LastDot, NextDot;
    var d := NextDot(s, 0);
    LastDotUnique(s, if d == |s| then -1 else d);
  }

  lemma OneDotParts(s: seq<byte>)
    requires OneDotAtMost(s)
    requires LastDot(s, |s|) == if NextDot(s, 0) == |s| then -1 else NextDot(s, 0)
    ensures FirstPart(s) == Base(s) && SecondPart(s) == Extension(s)
  {
    hide LastDot, NextDot;
  }

  /** With at most one dot the builder stores the name the kernel would. */
  lemma BuilderNameIsShort(s: seq<byte>)
    requires OneDotAtMost(s)
    ensures BuilderName(s) == ShortName(s)
  {
    hide PadTo, UpperAll, Cut, LastDot, NextDot, Base, Extension, FirstPart, SecondPart;
    OneDot(s);
    OneDotParts(s);
  }

  /** The builder's `.` and `..` entries have blank names. */
  lemma DotEntriesAreBlank()
    ensures BuilderName([DOT]) == BuilderName([DOT, DOT]) == Spaces(11)
  {
    hide LastDot, Strip;
    assert NextDot([DOT], 0) == 0 && NextDot([DOT, DOT], 0) == 0;
    assert NextDot([DOT], 1) == 1 && NextDot([DOT, DOT], 1) == 1;
    assert FirstPart([DOT]) == [] && FirstPart([DOT, DOT]) == [] && SecondPart([DOT]) == []
        && SecondPart([DOT, DOT]) == [];
    assert UpperAll(Cut([], 8)) == [] && UpperAll(Cut([], 3)) == [];
  }

  lemma {:induction false} StripMember(s: seq<byte>, c: byte)
    ensures c in Strip(s) ==> c in s
  {
    if s != [] {
      StripMember(s[1..], c);
    }
  }

  lemma NoDotLower(s: seq<byte>)
    requires DOT !in s
    ensures DOT !in LowerAll(Strip(s))
  {
    hide Strip;
    StripMember(s, DOT);
    forall i | 0 <= i < |Strip(s)|
      ensures Strip(s)[i] != DOT
    {
      assert Strip(s)[i] in Strip(s);
      StripMember(s, Strip(s)[i]);
    }
  }

  lemma NoDotPadded(s: seq<byte>, n: nat)
    requires DOT !in s
    ensures DOT !in PadTo(UpperAll(Cut(s, n)), n)
  {
    forall i | 0 <= i < |Cut(s, n)|
      ensures Cut(s, n)[i] != DOT
    {
      assert Cut(s, n)[i] == s[i];
    }
  }

  /** A name the builder stores reads back with at most one dot. */
  lemma OneDotRead(s: seq<byte>, i: nat, j: nat)
    requires i < j < |LongName(BuilderName(s))|
    ensures LongName(BuilderName(s))[i] != DOT || LongName(BuilderName(s))[j] != DOT
  {
    hide NextDot, Strip, LowerAll, PadTo, UpperAll, Cut;
    NoDotPadded(FirstPart(s), 8);
    NoDotPadded(SecondPart(s), 3);
    var f := BuilderName(s);
    assert f[..8] == PadTo(UpperAll(Cut(FirstPart(s), 8)), 8) && f[8..] == PadTo(UpperAll(Cut(SecondPart(s), 3)), 3);
    NoDotLower(f[..8]);
    NoDotLower(f[8..]);
    var b, e := LowerAll(Strip(f[..8])), LowerAll(Strip(f[8..]));
    if e != [] {
      OnlyDotAt(b, e, i);
      OnlyDotAt(b, e, j);
    }
  }

  lemma OnlyDotAt(b: seq<byte>, e: seq<byte>, i: nat)
    requires DOT !in b && DOT !in e && i < |b + [DOT] + e|
    ensures (b + [DOT] + e)[i] == DOT ==> i == |b|
  {
    assert i < |b| ==> (b + [DOT] + e)[i] == b[i];
    assert i > |b| ==> (b + [DOT] + e)[i] == e[i - |b| - 1];
  }

  /** A name with two dots is not what the builder's short name for it reads back as. */
  lemma TwoDots(s: seq<byte>)
    requires !OneDotAtMost(s)
    ensures LowerAll(s) != LongName(BuilderName(s))
  {
    hide NextDot, BuilderName, LongName;
    var i := NextDot(s, 0);
    var j := NextDot(s, i + 1);
    assert LowerAll(s)[i] == DOT && LowerAll(s)[j] == DOT;
    if LowerAll(s) == LongName(BuilderName(s)) {
      OneDotRead(s, i, j);
    }
  }

  /** No name the builder stores reads back as `.` or `..`: it never stores a dot. */
  lemma NeverDots(s: seq<byte>)
    ensures LongName(BuilderName(s)) != [DOT] && LongName(BuilderName(s)) != [DOT, DOT]
  {
    hide NextDot, Strip, LowerAll, PadTo, UpperAll, Cut;
    NoDotPadded(FirstPart(s), 8);
    NoDotPadded(SecondPart(s), 3);
    var f := BuilderName(s);
    assert f[..8] == PadTo(UpperAll(Cut(FirstPart(s), 8)), 8) && f[8..] == PadTo(UpperAll(Cut(SecondPart(s), 3)), 3);
    NoDotLower(f[..8]);
    NoDotLower(f[8..]);
    NotDots(LowerAll(Strip(f[..8])), LowerAll(Strip(f[8..])));
  }

  lemma NotDots(b: seq<byte>, e: seq<byte>)
    requires DOT !in b && DOT !in e
    ensures var r := if e == [] then b else b + [DOT] + e; r != [DOT] && r != [DOT, DOT]
  {
    if e != [] {
      assert (b + [DOT] + e)[|b| + 1] == e[0];
    }
  }

  // ---- clusters ----

  function Needed(n: nat): (k: nat)
    ensures k >= 1 && n <= k * CLUSTER && (n > 0 ==> (k - 1) * CLUSTER < n)
  {
    Max(1, (n + CLUSTER - 1) / CLUSTER)
  }

  datatype File = File(path: seq<byte>, data: seq<byte>)

  /** The first cluster of the k-th file: clusters are handed out in order. */
  function StartOf(files: seq<File>, k: nat): (c: nat)
    requires k <= |files|
    ensures c >= FIRST_FILE
  {
    if k == 0 then FIRST_FILE else StartOf(files, k - 1) + Needed(|files[k - 1].data|)
  }

  function Range(start: nat, n: nat): (cs: seq<nat>)
    ensures |cs| == n && forall i :: 0 <= i < n ==> cs[i] == start + i
  {
    seq(n, i => start + i)
  }

  function ChainOf(files: seq<File>, k: nat): seq<nat>
    requires k < |files|
  {
    Range(StartOf(files, k), Needed(|files[k].data|))
  }

  lemma {:induction false} StartsGrow(files: seq<File>, i: nat, j: nat)
    requires i < j <= |files|
    ensures StartOf(files, i) + Needed(|files[i].data|) <= StartOf(files, j)
  {
    if i < j - 1 {
      StartsGrow(files, i, j - 1);
    }
  }

  /** No two files share a cluster, and none uses a directory's cluster. */
  lemma ChainsDisjoint(files: seq<File>, i: nat, j: nat)
    requires i < j < |files|
    ensures forall c :: c in ChainOf(files, i) ==> c !in ChainOf(files, j)
    ensures forall c :: c in ChainOf(files, i) ==> c >= FIRST_FILE
  {
    StartsGrow(files, i, j);
  }

  lemma {:induction false} StartsPrefix(files: seq<File>, k: nat, m: nat)
    requires k <= m <= |files|
    ensures StartOf(files[..m], k) == StartOf(files, k)
  {
    if k > 0 {
      StartsPrefix(files, k - 1, m);
    }
  }

  // ---- directory records ----

  datatype Record = Record(name: seq<byte>, attributes: byte, start: nat, size: nat)

  function RootRecords(): seq<Record> {
    [Record(BIN, ATTR_DIRECTORY, 3, 0), Record(LIB, ATTR_DIRECTORY, 4, 0),
     Record(INCLUDE, ATTR_DIRECTORY, 5, 0), Record(HOME, ATTR_DIRECTORY, 6, 0)]
  }

  function RecordOf(files: seq<File>, k: nat): Record
    requires k < |files| && PathParts(files[k].path) != []
  {
    Record(FileNameOf(PathParts(files[k].path)), ATTR_ARCHIVE, StartOf(files, k), |files[k].data|)
  }

  ghost predicate PathsOk(files: seq<File>) {
    forall k :: 0 <= k < |files| ==> PathParts(files[k].path) != []
  }

  /** The record the k-th file leaves in directory `d`, if it goes there. */
  function RecordsIn(files: seq<File>, k: nat, d: nat): seq<Record>
    requires k < |files| && PathParts(files[k].path) != []
  {
    if DirectoryOf(PathParts(files[k].path)) == d then [RecordOf(files, k)] else []
  }

  /** The records of directory `d` after the first `k` files. */
  function Records(files: seq<File>, k: nat, d: nat): seq<Record>
    requires k <= |files| && PathsOk(files)
  {
    if k == 0 then (if d == 0 then RootRecords() else [])
    else Records(files, k - 1, d) + RecordsIn(files, k - 1, d)
  }

  /** Every file in a known directory has its record there. */
  lemma {:induction false} Recorded(files: seq<File>, k: nat, i: nat)
    requires i < k <= |files| && PathsOk(files) && DirectoryOf(PathParts(files[i].path)) >= 0
    ensures RecordOf(files, i) in Records(files, k, DirectoryOf(PathParts(files[i].path)))
  {
    if i < k - 1 {
      Recorded(files, k - 1, i);
    }
  }

  lemma {:induction false} RecordAt(files: seq<File>, i: nat, k: nat, d: nat)
    requires i < k <= |files| && PathsOk(files) && DirectoryOf(PathParts(files[i].path)) == d
    ensures var a, rs := |Records(files, i, d)|, Records(files, k, d); a < |rs| && rs[a] == RecordOf(files, i)
    ensures i + 1 < k && DirectoryOf(PathParts(files[k - 1].path)) == d ==>
              |Records(files, i, d)| < |Records(files, k - 1, d)|
  {
    hide PathParts, DirectoryOf, RecordOf;
    if i < k - 1 {
      RecordAt(files, i, k - 1, d);
    }
  }

  /** A directory lists its files in the order in which they were given. */
  lemma RecordsInOrder(files: seq<File>, i: nat, j: nat, d: nat)
    requires i < j < |files| && PathsOk(files)
    requires DirectoryOf(PathParts(files[i].path)) == d == DirectoryOf(PathParts(files[j].path))
    ensures var rs := Records(files, |files|, d);
            exists a, b :: 0 <= a < b < |rs| && rs[a] == RecordOf(files, i) && rs[b] == RecordOf(files, j)
  {
    hide PathParts, DirectoryOf, RecordOf, Records;
    RecordAt(files, i, |files|, d);
    RecordAt(files, j, |files|, d);
    RecordAt(files, i, j + 1, d);
    assert 0 <= |Records(files, i, d)| < |Records(files, j, d)|;
  }

  function DiskEntry(r: Record): (e: Entry)
    requires r.start < U32 && r.size < U32
  {
    WithSize(NewEntry(BuilderName(r.name), r.attributes, r.start), r.size)
  }

  ghost predicate RecordsFit(rs: seq<Record>) {
    forall i :: 0 <= i < |rs| ==> rs[i].start < U32 && rs[i].size < U32
  }

  function DiskEntries(rs: seq<Record>): (es: seq<Entry>)
    requires RecordsFit(rs)
    ensures |es| == |rs| && forall i :: 0 <= i < |rs| ==> es[i] == DiskEntry(rs[i])
  {
    seq(|rs|, i requires 0 <= i < |rs| => DiskEntry(rs[i]))
  }

  /** All records of a directory's cluster; the four directories start with `.` and `..`. */
  function AllRecords(d: nat, rs: seq<Record>): seq<Record> {
    if d == 0 then rs
    else [Record([DOT], ATTR_DIRECTORY, ROOT + d, 0), Record([DOT, DOT], ATTR_DIRECTORY, ROOT, 0)] + rs
  }

  // ---- file contents in clusters ----

  /** The k-th cluster of a file: its bytes there, and zeros after its end. */
  function Chunk(x: seq<byte>, k: nat): (c: seq<byte>)
    ensures |c| == CLUSTER
  {
    var part := x[Min(|x|, k * CLUSTER)..Min(|x|, (k + 1) * CLUSTER)];
    part + Zeros(CLUSTER - |part|)
  }

  lemma {:induction false} ChunksContents(v: Volume, start: nat, x: seq<byte>, k: nat, n: nat)
    requires k <= n && |x| <= n * CLUSTER && 2 <= start && start + n <= |v.data| + 2
    requires forall i :: 0 <= i < n ==> v.data[start - 2 + i] == Chunk(x, i)
    ensures InData(v, Range(start, k))
    ensures Contents(v, Range(start, k)) == (x + Zeros(n * CLUSTER - |x|))[..k * CLUSTER]
  {
    if k == 0 {
      assert Range(start, 0) == [];
    } else {
      ChunksContents(v, start, x, k - 1, n);
      assert Range(start, k) == Range(start, k - 1) + [start + k - 1];
      ContentsConcat(v, Range(start, k - 1), [start + k - 1]);
      var c := v.data[start - 2 + (k - 1)];
      assert Contents(v, [start + k - 1]) == c + Contents(v, []);
      var all := x + Zeros(n * CLUSTER - |x|);
      assert all[(k - 1) * CLUSTER..k * CLUSTER] == Chunk(x, k - 1);
      assert all[..k * CLUSTER] == all[..(k - 1) * CLUSTER] + all[(k - 1) * CLUSTER..k * CLUSTER];
    }
  }

  /** The links of a file's chain. */
  function Links(start: nat, n: nat): (ls: seq<nat>)
    ensures |ls| == n
  {
    seq(n, i => if i == n - 1 then END_MARK else start + i + 1)
  }

  lemma LinksChain(t: seq<nat>, start: nat, n: nat)
    requires 2 <= start && n >= 1 && start + n <= IMAGE.End() && start + n <= |t|
    requires t[start..start + n] == Links(start, n)
    ensures IsChain(IMAGE, t, Range(start, n))
  {
    forall i | 0 <= i < n
      ensures t[start + i] == Links(start, n)[i]
    {
      assert t[start..start + n][i] == t[start + i];
    }
  }
}
