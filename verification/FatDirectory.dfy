/**
 A FAT directory as a finite map (kernel/fs/fat32.cpp:533-807).  The directory's
 bytes are cut into 32-byte entries; `Listing` is the map from lower-case names
 to entries that a scan from the front sees.
*/
module FatDirectory {
  import opened Bytes
  import opened FatTable
  import opened FatChains
  import opened FatDirent
  import opened FatNames

  type Entry = e: seq<byte> | |e| == ENTRY_SIZE witness Zeros(ENTRY_SIZE)

  function EntriesOf(d: seq<byte>): (r: seq<Entry>)
    ensures |r| == |d| / ENTRY_SIZE
    ensures forall i {:trigger r[i]} :: 0 <= i < |r| ==> r[i] == EntryIn(d, i * ENTRY_SIZE)
  {
    seq(|d| / ENTRY_SIZE, i requires 0 <= i < |d| / ENTRY_SIZE => EntryIn(d, i * ENTRY_SIZE))
  }

  /** The marker after which a scan does not look. */
  predicate IsEnd(e: Entry) { e[0] == 0 }

  predicate IsDeleted(e: Entry) { e[0] == DELETED }

  /** An entry a file can be created in. */
  predicate IsSlot(e: Entry) { IsEnd(e) || IsDeleted(e) }

  /** Not deleted, not part of a long name, not a volume label. */
  predicate IsLive(e: Entry) { !IsDeleted(e) && Attributes(e) != ATTR_LFN && Attributes(e) / ATTR_VOLUME_ID % 2 == 0 }

  function Key(e: Entry): seq<byte> { LongName(Name(e)) }

  /** What the kernel tests for an entry it did not skip. */
  predicate Matches(e: Entry, name: seq<byte>) { IsLive(e) && SameIgnoringCase(Key(e), name) }

  function Listing(es: seq<Entry>): map<seq<byte>, Entry> {
    if es == [] || IsEnd(es[0]) then map[]
    else if IsLive(es[0]) then Listing(es[1..])[Key(es[0]) := es[0]]
    else Listing(es[1..])
  }

  /** Everything after an end marker is an end marker. */
  ghost predicate TailEnded(es: seq<Entry>) {
    forall i, j :: 0 <= i < j < |es| && IsEnd(es[i]) ==> IsEnd(es[j])
  }

  ghost predicate NoLongNames(es: seq<Entry>) {
    forall i :: 0 <= i < |es| && !IsSlot(es[i]) ==> Attributes(es[i]) != ATTR_LFN
  }

  predicate IsVisible(e: Entry) { !IsEnd(e) && IsLive(e) }

  /** No two entries answer to the same name. */
  ghost predicate KeysDistinct(es: seq<Entry>) {
    forall i, j :: 0 <= i < j < |es| && IsVisible(es[i]) && IsVisible(es[j]) ==> Key(es[i]) != Key(es[j])
  }

  ghost predicate StartsInRange(g: Geometry, es: seq<Entry>) {
    forall i :: 0 <= i < |es| && IsVisible(es[i]) ==> LinkInRange(g, StartCluster(es[i]))
  }

  ghost predicate DirectoryOk(g: Geometry, es: seq<Entry>) {
    TailEnded(es) && NoLongNames(es) && StartsInRange(g, es)
  }

  /** At most one entry answers to `key`. */
  ghost predicate KeyOnce(es: seq<Entry>, key: seq<byte>) {
    forall i, j :: 0 <= i < j < |es| && IsVisible(es[i]) && IsVisible(es[j]) ==>
        !(Key(es[i]) == key && Key(es[j]) == key)
  }

  /** From `es` to `es'` no name got a second entry. */
  ghost predicate StayOnce(es: seq<Entry>, es': seq<Entry>) {
    forall key :: KeyOnce(es, key) ==> KeyOnce(es', key)
  }

  // ---- names in upper and lower case ----

  lemma LowerTwice(s: seq<byte>)
    ensures LowerAll(LowerAll(s)) == LowerAll(s)
  {
  }

  lemma LowerConcat(a: seq<byte>, b: seq<byte>)
    ensures LowerAll(a + b) == LowerAll(a) + LowerAll(b)
  {
  }

  /** Keys are in lower case, so matching a name is being filed under that name in lower case. */
  lemma KeyIsLower(e: Entry, name: seq<byte>)
    ensures LowerAll(Key(e)) == Key(e)
    ensures Matches(e, name) <==> IsLive(e) && Key(e) == LowerAll(name)
  {
    hide LowerAll, Strip, IsLive;
    var f := Name(e);
    var b, x := LowerAll(Strip(f[..8])), LowerAll(Strip(f[8..]));
    LowerTwice(Strip(f[..8]));
    LowerTwice(Strip(f[8..]));
    LowerConcat(b + [DOT], x);
    LowerConcat(b, [DOT]);
    DotIsLower();
  }

  lemma DotIsLower()
    ensures LowerAll([DOT]) == [DOT]
  {
  }

  // ---- scanning ----

  /** The first `n` entries hold neither an end marker nor the key. */
  ghost predicate Passed(es: seq<Entry>, n: nat, key: seq<byte>) {
    n <= |es| && forall j :: 0 <= j < n ==> !IsEnd(es[j]) && !(IsLive(es[j]) && Key(es[j]) == key)
  }

  lemma {:induction false} ListingHit(es: seq<Entry>, i: nat, key: seq<byte>)
    requires i < |es| && Passed(es, i, key) && IsVisible(es[i]) && Key(es[i]) == key
    ensures key in Listing(es) && Listing(es)[key] == es[i]
  {
    hide Key, IsLive;
    if i > 0 {
      ListingHit(es[1..], i - 1, key);
    }
  }

  lemma {:induction false} ListingMiss(es: seq<Entry>, i: nat, key: seq<byte>)
    requires Passed(es, i, key) && (i == |es| || IsEnd(es[i]))
    ensures key !in Listing(es)
  {
    hide Key, IsLive;
    if i > 0 {
      ListingMiss(es[1..], i - 1, key);
    }
  }

  /** A key is listed exactly when some visible entry before the end marker carries it. */
  lemma {:induction false} ListingKeys(es: seq<Entry>, key: seq<byte>)
    requires TailEnded(es)
    ensures key in Listing(es) <==> exists i :: 0 <= i < |es| && IsVisible(es[i]) && Key(es[i]) == key
  {
    hide Key, IsLive;
    if es != [] {
      var rest := es[1..];
      ListingKeys(rest, key);
      if i :| 0 <= i < |es| && IsVisible(es[i]) && Key(es[i]) == key {
        assert !IsEnd(es[0]);
        if i > 0 {
          assert rest[i - 1] == es[i];
        }
      }
      if i :| 0 <= i < |rest| && IsVisible(rest[i]) && Key(rest[i]) == key {
        assert es[i + 1] == rest[i];
      }
    }
  }

  // ---- creating ----

  /** `at` is the slot a creation uses. */
  ghost predicate FirstSlot(es: seq<Entry>, at: nat) {
    at < |es| && IsSlot(es[at]) && forall j :: 0 <= j < at ==> !IsSlot(es[j])
  }

  lemma ListingEnded(es: seq<Entry>)
    requires es == [] || IsEnd(es[0])
    ensures Listing(es) == map[]
  {
  }

  lemma TailOfTail(es: seq<Entry>)
    requires es != [] && TailEnded(es)
    ensures TailEnded(es[1..])
    ensures IsEnd(es[0]) ==> Listing(es[1..]) == map[]
  {
    forall i, j | 0 <= i < j < |es[1..]| && IsEnd(es[1..][i])
      ensures IsEnd(es[1..][j])
    {
      assert IsEnd(es[i + 1]);
      assert es[1..][j] == es[j + 1];
    }
    if IsEnd(es[0]) && |es| > 1 {
      assert IsEnd(es[1]);
      assert es[1..][0] == es[1];
    }
  }

  /** Filling the first slot adds exactly one binding; if the new entry is not visible (its name starts
      with 0xE5) it adds none. */
  lemma {:induction false} ListingCreated(es: seq<Entry>, at: nat, e: Entry)
    requires TailEnded(es) && FirstSlot(es, at) && !IsEnd(e)
    requires IsLive(e) ==> Key(e) !in Listing(es)
    ensures Listing(es[at := e]) == if IsLive(e) then Listing(es)[Key(e) := e] else Listing(es)
  {
    hide Key, IsLive;
    DeletedNotLive(es[at]);
    TailOfTail(es);
    if at == 0 {
      assert es[at := e][1..] == es[1..];
    } else {
      assert es[at := e][1..] == es[1..][at - 1 := e] && es[at := e][0] == es[0];
      ListingCreated(es[1..], at - 1, e);
    }
  }

  lemma DeletedNotLive(e: Entry)
    ensures IsDeleted(e) ==> !IsLive(e)
  {
  }

  /** A creation keeps a directory well formed, and if its key is new or it does not show, no name gets a second
      entry. */
  lemma CreatedOk(g: Geometry, es: seq<Entry>, at: nat, e: Entry)
    requires DirectoryOk(g, es) && FirstSlot(es, at) && !IsEnd(e) && Attributes(e) != ATTR_LFN
             && LinkInRange(g, StartCluster(e))
    requires IsLive(e) ==> Key(e) !in Listing(es)
    ensures DirectoryOk(g, es[at := e]) && StayOnce(es, es[at := e])
  {
    hide Key, IsLive, Listing, LinkInRange, StartCluster;
    ListingKeys(es, Key(e));
    var es' := es[at := e];
    forall key | KeyOnce(es, key)
      ensures KeyOnce(es', key)
    {
      forall i, j | 0 <= i < j < |es'| && IsVisible(es'[i]) && IsVisible(es'[j])
        ensures !(Key(es'[i]) == key && Key(es'[j]) == key)
      {
        if i == at {
          assert IsVisible(es[j]);
        } else if j == at {
          assert IsVisible(es[i]);
        }
      }
    }
  }

  /** Creating a name that is already there leaves two entries with that name. */
  lemma DuplicateCreated(es: seq<Entry>, at: nat, e: Entry)
    requires TailEnded(es) && FirstSlot(es, at) && IsVisible(e) && Key(e) in Listing(es)
    ensures !KeysDistinct(es[at := e])
  {
    hide Key, IsLive, Listing;
    ListingKeys(es, Key(e));
    var i :| 0 <= i < |es| && IsVisible(es[i]) && Key(es[i]) == Key(e);
    DeletedNotLive(es[at]);
    assert i != at;
    var es' := es[at := e];
    assert IsVisible(es'[i]) && IsVisible(es'[at]);
  }

  // ---- removing ----

  function Deleted(e: Entry): Entry { e[0 := DELETED] }

  /** Deleting the entry a lookup finds uncovers the next one with the same key, if any. */
  lemma {:induction false} ListingRemoved(es: seq<Entry>, at: nat)
    requires at < |es| && IsVisible(es[at]) && Passed(es, at, Key(es[at]))
    ensures Listing(es[at := Deleted(es[at])]) ==
      var key, rest := Key(es[at]), Listing(es[at + 1..]);
      if key in rest then Listing(es)[key := rest[key]] else Listing(es) - {key}
  {
    hide Key, IsLive;
    var e := Deleted(es[at]);
    DeletedNotLive(e);
    if at == 0 {
      assert es[at := e][1..] == es[1..];
    } else {
      assert es[at := e][1..] == es[1..][at - 1 := e] && es[at := e][0] == es[0];
      assert es[1..][at - 1 + 1..] == es[at + 1..];
      ListingRemoved(es[1..], at - 1);
    }
  }

  /** Removal deletes exactly one binding if and only if no later entry carries the key. */
  lemma RemoveExactIff(es: seq<Entry>, at: nat)
    requires at < |es| && IsVisible(es[at]) && Passed(es, at, Key(es[at]))
    ensures Listing(es[at := Deleted(es[at])]) == Listing(es) - {Key(es[at])} <==> Key(es[at]) !in Listing(es[at + 1..])
  {
    hide Key, IsLive, Listing;
    ListingRemoved(es, at);
    ListingHit(es, at, Key(es[at]));
  }

  lemma RemovedOk(g: Geometry, es: seq<Entry>, at: nat)
    requires DirectoryOk(g, es) && at < |es| && IsVisible(es[at])
    ensures DirectoryOk(g, es[at := Deleted(es[at])]) && StayOnce(es, es[at := Deleted(es[at])])
  {
    hide Key, IsLive, LinkInRange, StartCluster;
    DeletedNotLive(Deleted(es[at]));
  }

  /** A name is answered by one entry exactly when none after the first one that answers to it does. */
  lemma OnceIff(es: seq<Entry>, at: nat)
    requires TailEnded(es) && at < |es| && IsVisible(es[at]) && Passed(es, at, Key(es[at]))
    ensures KeyOnce(es, Key(es[at])) <==> Key(es[at]) !in Listing(es[at + 1..])
  {
    hide Key, IsLive, Listing;
    var rest, key := es[at + 1..], Key(es[at]);
    forall i, j | 0 <= i < j < |rest| && IsEnd(rest[i])
      ensures IsEnd(rest[j])
    {
      assert rest[i] == es[at + 1 + i] && rest[j] == es[at + 1 + j];
    }
    ListingKeys(rest, key);
    if i :| 0 <= i < |rest| && IsVisible(rest[i]) && Key(rest[i]) == key {
      assert rest[i] == es[at + 1 + i];
    }
    if i, j :| 0 <= i < j < |es| && IsVisible(es[i]) && IsVisible(es[j]) && Key(es[i]) == key && Key(es[j]) == key {
      assert i >= at && rest[j - at - 1] == es[j];
    }
  }

  // ---- the entry of a new file ----

  /** kernel/fs/fat32.cpp:677-688 */
  function NewEntry(short: seq<byte>, attributes: byte, start: nat): (e: Entry)
    requires |short| == 11 && start < U32
  {
    short + [attributes] + Zeros(8) + PutLe16(start / U16) + Zeros(4) + PutLe16(start % U16) + Zeros(4)
  }

  function TypeAttribute(isDirectory: bool): byte { if isDirectory then ATTR_DIRECTORY else ATTR_ARCHIVE }

  lemma NewEntryReads(short: seq<byte>, attributes: byte, start: nat)
    requires |short| == 11 && start < U32
    ensures var e := NewEntry(short, attributes, start);
            Name(e) == short && Attributes(e) == attributes && StartCluster(e) == start && FileSize(e) == 0
  {
    var e := NewEntry(short, attributes, start);
    assert e[20..22] == PutLe16(start / U16) && e[26..28] == PutLe16(start % U16);
    assert Name(e) == short;
  }

  /** A name the directory can show again: 8.3 can hold it and it does not start with the deletion mark. */
  predicate Storable(name: seq<byte>) {
    FitsShort(name) && (name != [] ==> name[0] != DELETED)
  }

  lemma ShortNameStart(name: seq<byte>)
    ensures ShortName(name)[0] == if Base(name) == [] then SPACE else Upper(name[0])
    ensures if Base(name) == [] then name == [] || name[0] == DOT else name != []
  {
    hide LastDot;
  }

  /** The entry made for a C string: never an end marker, and live unless the name starts with 0xE5. */
  lemma NewEntryVisible(name: seq<byte>, isDirectory: bool, start: nat)
    requires start < U32 && 0 !in name
    ensures var e := NewEntry(ShortName(name), TypeAttribute(isDirectory), start);
            && !IsEnd(e) && Attributes(e) != ATTR_LFN && (IsLive(e) <==> name == [] || name[0] != DELETED)
            && Key(e) == LongName(ShortName(name))
  {
    hide LastDot, Base, ShortName, LongName;
    NewEntryReads(ShortName(name), TypeAttribute(isDirectory), start);
    ShortNameStart(name);
    var e := NewEntry(ShortName(name), TypeAttribute(isDirectory), start);
    assert e[0] == Name(e)[0];
  }

  /** After a successful creation of a name the directory did not hold, looking that name up succeeds
      if and only if the name is storable; then the listing gained exactly that binding. */
  lemma CreatedFoundIff(es: seq<Entry>, at: nat, name: seq<byte>, isDirectory: bool, start: nat)
    requires TailEnded(es) && FirstSlot(es, at) && start < U32 && 0 !in name
    requires LowerAll(name) !in Listing(es) && LongName(ShortName(name)) !in Listing(es)
    ensures var e := NewEntry(ShortName(name), TypeAttribute(isDirectory), start);
            && (LowerAll(name) in Listing(es[at := e]) <==> Storable(name))
            && (Storable(name) ==> Listing(es[at := e]) == Listing(es)[LowerAll(name) := e])
  {
    hide Listing, LowerAll, LongName, ShortName, FitsShort, NewEntry;
    var e := NewEntry(ShortName(name), TypeAttribute(isDirectory), start);
    NewEntryVisible(name, isDirectory, start);
    ListingCreated(es, at, e);
    FormatUndoesCreateIff(name);
    assert IsLive(e) ==> Listing(es[at := e]) == Listing(es)[Key(e) := e];
    assert Key(e) == LowerAll(name) <==> FitsShort(name);
  }

  lemma {:induction false} ListingExtended(es: seq<Entry>, zs: seq<Entry>)
    requires forall i :: 0 <= i < |zs| ==> IsEnd(zs[i])
    ensures Listing(es + zs) == Listing(es)
  {
    hide Key, IsLive;
    if es == [] {
      assert es + zs == zs;
    } else {
      assert (es + zs)[1..] == es[1..] + zs;
      ListingExtended(es[1..], zs);
    }
  }

  lemma ExtendedOk(g: Geometry, es: seq<Entry>, zs: seq<Entry>)
    requires DirectoryOk(g, es) && forall i :: 0 <= i < |zs| ==> IsEnd(zs[i])
    ensures DirectoryOk(g, es + zs)
  {
    hide Key, IsLive, LinkInRange, StartCluster;
  }

  // ---- a new directory ----

  function DotName(): (r: seq<byte>)
    ensures |r| == 11
  {
    [DOT] + Spaces(10)
  }

  function DotDotName(): (r: seq<byte>)
    ensures |r| == 11
  {
    [DOT, DOT] + Spaces(9)
  }

  /** The first cluster of a new directory: itself, its parent, and zeros. */
  function DotsCluster(n: nat, self: nat, parent: nat): (r: seq<byte>)
    requires self < U32 && parent < U32
    ensures |r| == 2 * ENTRY_SIZE + n
  {
    NewEntry(DotName(), ATTR_DIRECTORY, self) + NewEntry(DotDotName(), ATTR_DIRECTORY, parent) + Zeros(n)
  }

  lemma DotKeys(n: nat)
    ensures Strip([DOT] + Spaces(n)) == [DOT] && Strip([DOT, DOT] + Spaces(n)) == [DOT, DOT]
  {
    StripConcat([DOT], Spaces(n));
    StripConcat([DOT, DOT], Spaces(n));
    StripSpaces(n);
    StripLength([DOT]);
    StripLength([DOT, DOT]);
  }

  lemma DotsRead(self: nat, parent: nat)
    requires self < U32 && parent < U32
    ensures var e, f := NewEntry(DotName(), ATTR_DIRECTORY, self), NewEntry(DotDotName(), ATTR_DIRECTORY, parent);
            IsVisible(e) && IsVisible(f) && Key(e) == [DOT] && Key(f) == [DOT, DOT]
  {
    hide Strip, LowerAll, NewEntry;
    NewEntryReads(DotName(), ATTR_DIRECTORY, self);
    NewEntryReads(DotDotName(), ATTR_DIRECTORY, parent);
    var e, f := NewEntry(DotName(), ATTR_DIRECTORY, self), NewEntry(DotDotName(), ATTR_DIRECTORY, parent);
    assert e[0] == Name(e)[0] && f[0] == Name(f)[0];
    DotKeys(7);
    DotKeys(6);
    StripSpaces(3);
    assert DotName()[..8] == [DOT] + Spaces(7) && DotDotName()[..8] == [DOT, DOT] + Spaces(6);
    assert DotName()[8..] == Spaces(3) && DotDotName()[8..] == Spaces(3);
    LowerDots();
  }

  lemma LowerDots()
    ensures LowerAll([]) == [] && LowerAll([DOT]) == [DOT] && LowerAll([DOT, DOT]) == [DOT, DOT]
  {
  }

  /** A new directory lists itself and its parent, and nothing else. */
  lemma DotsListing(g: Geometry, n: nat, self: nat, parent: nat)
    requires n % ENTRY_SIZE == 0 && self < U32 && parent < U32 && LinkInRange(g, self) && LinkInRange(g, parent)
    ensures var es := EntriesOf(DotsCluster(n, self, parent));
            && DirectoryOk(g, es) && KeysDistinct(es)
            && Listing(es) == map[[DOT] := NewEntry(DotName(), ATTR_DIRECTORY, self),
                                  [DOT, DOT] := NewEntry(DotDotName(), ATTR_DIRECTORY, parent)]
  {
    hide Key, IsLive, NewEntry, LinkInRange, StartCluster;
    var e: Entry, f: Entry := NewEntry(DotName(), ATTR_DIRECTORY, self), NewEntry(DotDotName(), ATTR_DIRECTORY, parent);
    DotsRead(self, parent);
    NewEntryReads(DotName(), ATTR_DIRECTORY, self);
    NewEntryReads(DotDotName(), ATTR_DIRECTORY, parent);
    var d := DotsCluster(n, self, parent);
    var es := EntriesOf(d);
    assert es[0] == e && es[1] == f;
    forall i | 2 <= i < |es|
      ensures IsEnd(es[i])
    {
      assert es[i][0] == d[i * ENTRY_SIZE];
    }
    var rest := es[2..];
    ListingEnded(rest);
    assert es[1..][0] == f && es[1..][1..] == rest;
    assert Listing(es[1..]) == map[[DOT, DOT] := f];
  }

  /** All names of a directory differ exactly when each has at most one entry. */
  lemma DistinctIffOnce(es: seq<Entry>)
    ensures KeysDistinct(es) <==> forall key :: KeyOnce(es, key)
  {
    hide Key, IsLive;
    if forall key :: KeyOnce(es, key) {
      forall i, j | 0 <= i < j < |es| && IsVisible(es[i]) && IsVisible(es[j])
        ensures Key(es[i]) != Key(es[j])
      {
        assert KeyOnce(es, Key(es[i]));
      }
    }
  }

  /** A creation keeps all names different if and only if its entry hides behind 0xE5 or its key is new. */
  lemma CreatedDistinctIff(g: Geometry, es: seq<Entry>, at: nat, e: Entry)
    requires DirectoryOk(g, es) && KeysDistinct(es) && FirstSlot(es, at) && !IsEnd(e) && Attributes(e) != ATTR_LFN
             && LinkInRange(g, StartCluster(e))
    ensures KeysDistinct(es[at := e]) <==> IsLive(e) ==> Key(e) !in Listing(es)
  {
    hide Key, IsLive, Listing, LinkInRange, StartCluster;
    DistinctIffOnce(es);
    DistinctIffOnce(es[at := e]);
    if IsLive(e) && Key(e) in Listing(es) {
      DuplicateCreated(es, at, e);
    } else {
      CreatedOk(g, es, at, e);
    }
  }

  /** Where the fields of a new entry lie: name, attributes at byte 11, start cluster in halves at 20 and 26, size at
      28. */
  lemma EntryFormat(short: seq<byte>, attributes: byte, start: nat)
    requires |short| == 11 && start < U32
    ensures var e := NewEntry(short, attributes, start);
            && e[..11] == short && e[11] == attributes && Le16(e, 20) == start / 0x1_0000
            && Le16(e, 26) == start % 0x1_0000
            && Le32(e, 28) == 0 && e[12..20] == Zeros(8) && e[22..26] == Zeros(4)
  {
    var e := NewEntry(short, attributes, start);
    assert e[20..22] == PutLe16(start / U16) && e[26..28] == PutLe16(start % U16);
    assert e[28] == e[29] == e[30] == e[31] == 0;
  }

  /** Updates of an entry touch no other byte: a deletion the first, a new size the last four, a new start cluster its
      two halves. */
  lemma UpdatesElsewhere(e: Entry, n: nat)
    requires n < U32
    ensures Deleted(e)[0] == 0xE5 && Deleted(e)[1..] == e[1..]
    ensures WithSize(e, n)[..28] == e[..28] && Le32(WithSize(e, n), 28) == n
    ensures var r := WithCluster(e, n);
            r[..20] == e[..20] && r[22..26] == e[22..26] && r[28..] == e[28..]
            && Le16(r, 20) == n / 0x1_0000 && Le16(r, 26) == n % 0x1_0000
  {
    var r := WithCluster(e, n);
    assert r[26..28] == PutLe16(n % U16) && r[20..22] == PutLe16(n / U16);
    assert WithSize(e, n)[28..] == PutLe32(n);
  }

  /** Byte 0 is neither the end marker nor the mark of a deleted entry, and the attributes in byte 11 are neither those
      of a long name nor those of a volume label. */
  predicate Shows(e: Entry) {
    e[0] != 0 && e[0] != 0xE5 && e[11] != 0x0F && e[11] / 8 % 2 == 0
  }

  /** Entry `i` carries the key and lies before every end marker. */
  predicate ListedAt(es: seq<Entry>, i: int, key: seq<byte>) {
    0 <= i < |es| && Shows(es[i]) && Key(es[i]) == key && forall j :: 0 <= j < i ==> es[j][0] != 0
  }

  /** What is listed, told from the bytes of the entries: exactly the keys of the entries that show before the first end
      marker; and each is bound to the first such entry. */
  lemma {:induction false} ListedIff(es: seq<Entry>, key: seq<byte>)
    ensures key in Listing(es) <==> exists i :: ListedAt(es, i, key)
    ensures key in Listing(es) ==> exists i :: ListedAt(es, i, key) && Listing(es)[key] == es[i]
                                               && forall j :: 0 <= j < i ==> !ListedAt(es, j, key)
  {
    hide Key;
    if es != [] && !IsEnd(es[0]) {
      var rest := es[1..];
      ListedIff(rest, key);
      forall i
        ensures ListedAt(rest, i, key) <==> i >= 0 && ListedAt(es, i + 1, key)
      {
        ListedNext(es, i, key);
      }
      if ListedAt(es, 0, key) {
        assert Listing(es)[key] == es[0];
      } else if key in Listing(rest) {
        var i :| ListedAt(rest, i, key) && Listing(rest)[key] == rest[i] && forall j :: 0 <= j < i ==>
            !ListedAt(rest, j, key);
        assert ListedAt(es, i + 1, key) && Listing(es)[key] == es[i + 1];
        forall j | 0 <= j < i + 1
          ensures !ListedAt(es, j, key)
        {
          assert j > 0 ==> !ListedAt(rest, j - 1, key);
        }
      } else {
        forall i
          ensures !ListedAt(es, i, key)
        {
          assert !ListedAt(rest, i - 1, key);
        }
      }
    }
  }

  lemma ListedNext(es: seq<Entry>, i: int, key: seq<byte>)
    requires es != [] && !IsEnd(es[0])
    ensures ListedAt(es[1..], i, key) <==> i >= 0 && ListedAt(es, i + 1, key)
  {
    hide Key;
    var rest := es[1..];
    if i >= 0 && ListedAt(es, i + 1, key) {
      forall j | 0 <= j < i
        ensures rest[j][0] != 0
      {
        assert rest[j] == es[j + 1];
      }
    }
    if ListedAt(rest, i, key) {
      forall j | 0 <= j < i + 1
        ensures es[j][0] != 0
      {
        assert j > 0 ==> es[j] == rest[j - 1];
      }
    }
  }
}
